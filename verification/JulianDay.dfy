/** The clock of the VFS: Julian-day milliseconds of a calendar date and time. */
module JulianDay {

  const DAY_MS: int := 86_400_000

  datatype Date = Date(year: nat, month: nat, day: nat)
  datatype Time = Time(hour: nat, minute: nat, second: nat)

  // ---- The calendar ----

  predicate IsLeap(year: nat) {
    year % 4 == 0 && (year % 100 != 0 || year % 400 == 0)
  }

  function DaysIn(year: nat, month: nat): nat
    requires 1 <= month <= 12
  {
    match month
    case 2 => if IsLeap(year) then 29 else 28
    case 4 => 30
    case 6 => 30
    case 9 => 30
    case 11 => 30
    case _ => 31
  }

  predicate ValidDate(d: Date) {
    1 <= d.month <= 12 && 1 <= d.day <= DaysIn(d.year, d.month)
  }

  predicate ValidTime(t: Time) {
    t.hour < 24 && t.minute < 60 && t.second < 60
  }

  function NextDay(d: Date): Date
    requires ValidDate(d)
  {
    if d.day < DaysIn(d.year, d.month) then d.(day := d.day + 1)
    else if d.month < 12 then Date(d.year, d.month + 1, 1)
    else Date(d.year + 1, 1, 1)
  }

  predicate EarlierDate(a: Date, b: Date) {
    || a.year < b.year
    || (a.year == b.year && (a.month < b.month || (a.month == b.month && a.day < b.day)))
  }

  predicate EarlierTime(a: Time, b: Time) {
    || a.hour < b.hour
    || (a.hour == b.hour && (a.minute < b.minute || (a.minute == b.minute && a.second < b.second)))
  }

  // ---- The arithmetic of the clock ----

  /** Integer division as the machine does it: toward zero. */
  function Quotient(a: int, b: int): int
    requires b > 0
  {
    if a >= 0 then a / b else -(-a / b)
  }

  function DayNumber(d: Date): int {
    var a := Quotient(14 - d.month, 12);
    var y := d.year + 4800 - a;
    var m := d.month + 12 * a - 3;
    d.day + Quotient(153 * m + 2, 5) + YearDays(y) - 32045
  }

  function YearDays(y: int): int {
    365 * y + Quotient(y, 4) - Quotient(y, 100) + Quotient(y, 400)
  }

  function CurrentTimeMs(d: Date, t: Time): int {
    (DayNumber(d) - 1) * DAY_MS + DAY_MS / 2 + (t.hour * 3_600_000 + t.minute * 60_000 + t.second * 1_000)
  }

  // ---- Consecutive days ----

  /** The leap years up to `y`, counted by quotients, grow by one exactly in leap years. */
  lemma NextQuotients(y: nat)
    ensures (y + 1) / 4 == y / 4 + (if (y + 1) % 4 == 0 then 1 else 0)
    ensures (y + 1) / 100 == y / 100 + (if (y + 1) % 100 == 0 then 1 else 0)
    ensures (y + 1) / 400 == y / 400 + (if (y + 1) % 400 == 0 then 1 else 0)
  {
  }

  lemma Multiples(y: nat)
    ensures y % 100 == 0 ==> y % 4 == 0
    ensures y % 400 == 0 ==> y % 100 == 0
  {
    var a, b := y / 100, y / 400;
    assert y == 100 * a + y % 100 && y == 400 * b + y % 400;
    assert 100 * a == 4 * (25 * a) && 400 * b == 100 * (4 * b);
  }

  /** The shift by 4800 years keeps the leap rule. */
  lemma ShiftedLeap(year: nat)
    ensures (year + 4800) % 4 == year % 4
    ensures (year + 4800) % 100 == year % 100
    ensures (year + 4800) % 400 == year % 400
  {
    ShiftedBy4(year);
    ShiftedBy100(year);
    ShiftedBy400(year);
  }

  lemma ShiftedBy4(year: nat)
    ensures (year + 4800) % 4 == year % 4
  {
    assert (year + 4800) / 4 == year / 4 + 1200;
  }

  lemma ShiftedBy100(year: nat)
    ensures (year + 4800) % 100 == year % 100
  {
    assert (year + 4800) / 100 == year / 100 + 48;
  }

  lemma ShiftedBy400(year: nat)
    ensures (year + 4800) % 400 == year % 400
  {
    assert (year + 4800) / 400 == year / 400 + 12;
  }

  /** From the last of February to the first of March: the leap day. */
  lemma FebruaryEnds(year: nat)
    ensures DayNumber(Date(year, 3, 1)) == DayNumber(Date(year, 2, DaysIn(year, 2))) + 1
  {
    NextQuotients(year + 4799);
    Multiples(year + 4800);
    ShiftedLeap(year);
  }

  /** Every other month has its length. */
  lemma MonthEnds(year: nat, month: nat)
    requires 1 <= month < 12 && month != 2
    ensures DayNumber(Date(year, month + 1, 1)) == DayNumber(Date(year, month, DaysIn(year, month))) + 1
  {
    hide YearDays, IsLeap;
  }

  lemma YearEnds(year: nat)
    ensures DayNumber(Date(year + 1, 1, 1)) == DayNumber(Date(year, 12, 31)) + 1
  {
    hide YearDays;
  }

  /** The next calendar day is one day later: month lengths and the 4/100/400 rule. */
  lemma NextDayNumber(d: Date)
    requires ValidDate(d)
    ensures DayNumber(NextDay(d)) == DayNumber(d) + 1
  {
    if d.day < DaysIn(d.year, d.month) {
      DayInMonth(d);
      DayInMonth(NextDay(d));
    } else {
      hide DayNumber;
      if d.month == 2 {
        FebruaryEnds(d.year);
      } else if d.month < 12 {
        MonthEnds(d.year, d.month);
      } else {
        YearEnds(d.year);
      }
    }
  }

  /** The clock of the next day shows exactly 86,400,000 ms more. */
  lemma NextDayMs(d: Date, t: Time)
    requires ValidDate(d)
    ensures CurrentTimeMs(NextDay(d), t) == CurrentTimeMs(d, t) + 86_400_000
  {
    NextDayNumber(d);
  }

  /** One second later, over midnight too. */
  function NextSecond(d: Date, t: Time): (Date, Time)
    requires ValidDate(d)
  {
    if t.second < 59 then (d, t.(second := t.second + 1))
    else if t.minute < 59 then (d, Time(t.hour, t.minute + 1, 0))
    else if t.hour < 23 then (d, Time(t.hour + 1, 0, 0))
    else (NextDay(d), Time(0, 0, 0))
  }

  /** The clock advances by exactly 1000 ms a second. */
  lemma NextSecondMs(d: Date, t: Time)
    requires ValidDate(d) && ValidTime(t)
    ensures var next := NextSecond(d, t); CurrentTimeMs(next.0, next.1) == CurrentTimeMs(d, t) + 1000
  {
    NextDayNumber(d);
    hide DayNumber, DaysIn;
  }

  /** Noon is the whole day number, and the count has its usual origin: 1 January 2000 and 1 January 1970. */
  lemma KnownDays(d: Date)
    ensures CurrentTimeMs(d, Time(12, 0, 0)) == DayNumber(d) * DAY_MS
    ensures DayNumber(Date(2000, 1, 1)) == 2_451_545 && DayNumber(Date(1970, 1, 1)) == 2_440_588
  {
  }

  // ---- Order ----

  lemma DayInMonth(d: Date)
    ensures DayNumber(d) == DayNumber(d.(day := 1)) + d.day - 1
  {
    hide YearDays, Quotient;
  }

  lemma {:induction false} LaterMonth(year: nat, a: nat, b: nat)
    requires 1 <= a < b <= 12
    ensures DayNumber(Date(year, b, 1)) >= DayNumber(Date(year, a, 1)) + DaysIn(year, a)
  {
    var last := Date(year, b - 1, DaysIn(year, b - 1));
    NextDayNumber(last);
    DayInMonth(last);
    assert NextDay(last) == Date(year, b, 1) && DaysIn(year, b - 1) >= 1;
    hide DayNumber, DaysIn;
    if a < b - 1 {
      LaterMonth(year, a, b - 1);
    }
  }

  lemma {:induction false} LaterYear(a: nat, b: nat)
    requires a < b
    ensures DayNumber(Date(b, 1, 1)) >= DayNumber(Date(a, 12, 1)) + 31
  {
    NextDayNumber(Date(b - 1, 12, 31));
    if a < b - 1 {
      LaterYear(a, b - 1);
      LaterMonth(b - 1, 1, 12);
    }
  }

  /** A later date has a larger day number. */
  lemma DayNumberIncreases(a: Date, b: Date)
    requires ValidDate(a) && ValidDate(b) && EarlierDate(a, b)
    ensures DayNumber(a) < DayNumber(b)
  {
    DayInMonth(a);
    DayInMonth(b);
    DayInMonth(Date(a.year, 12, 31));
    assert DaysIn(a.year, 12) == 31;
    hide DayNumber, DaysIn;
    if a.year < b.year {
      LaterYear(a.year, b.year);
      if a.month < 12 {
        LaterMonth(a.year, a.month, 12);
      }
      if 1 < b.month {
        LaterMonth(b.year, 1, b.month);
      }
    } else if a.month < b.month {
      LaterMonth(a.year, a.month, b.month);
    }
  }

  lemma TimeOfDay(t: Time)
    requires ValidTime(t)
    ensures 0 <= t.hour * 3_600_000 + t.minute * 60_000 + t.second * 1_000 < DAY_MS
  {
  }

  /** The clock is strictly increasing in date and time. */
  lemma ClockIncreases(a: Date, s: Time, b: Date, t: Time)
    requires ValidDate(a) && ValidDate(b) && ValidTime(s) && ValidTime(t)
    requires EarlierDate(a, b) || (a == b && EarlierTime(s, t))
    ensures CurrentTimeMs(a, s) < CurrentTimeMs(b, t)
  {
    TimeOfDay(s);
    TimeOfDay(t);
    if EarlierDate(a, b) {
      DayNumberIncreases(a, b);
    }
  }

  // ---- The formula in the comment ----

  /** The day number as the comment beside the code computes it. */
  function CommentedDayNumber(d: Date): int {
    var a := Quotient(d.month - 14, 12);
    Quotient(1461 * (d.year + 4800 + a), 4) + Quotient(367 * (d.month - 2 - 12 * a), 12)
    - Quotient(3 * Quotient(d.year + 4900 + a, 100), 4) + d.day - 32075
  }

  /** Comment and code agree on every valid date. */
  lemma CommentAgrees(d: Date)
    requires ValidDate(d)
    ensures CommentedDayNumber(d) == DayNumber(d)
  {
    var a := Quotient(14 - d.month, 12);
    assert Quotient(d.month - 14, 12) == -a;
    var y := d.year + 4800 - a;
    CommentedYears(y);
    CommentedMonths(d.month);
  }

  lemma CommentedYears(y: nat)
    ensures 1461 * y / 4 - 3 * ((y + 100) / 100) / 4 == 365 * y + y / 4 - y / 100 + y / 400
  {
    var c := y / 100;
    assert (y + 100) / 100 == c + 1;
    assert y / 400 == c / 4 by {
      DivByFour(y);
    }
    assert 1461 * y / 4 == 365 * y + y / 4;
  }

  lemma DivByFour(y: nat)
    ensures y / 400 == y / 100 / 4
  {
    assert y == 100 * (y / 100) + y % 100;
    assert y / 100 == 4 * (y / 100 / 4) + y / 100 % 4;
  }

  lemma CommentedMonths(month: nat)
    requires 1 <= month <= 12
    ensures var a := Quotient(14 - month, 12);
            367 * (month - 2 + 12 * a) / 12 - 32075 == (153 * (month + 12 * a - 3) + 2) / 5 - 32045
  {
  }
}
