/** Days of the Gregorian calendar, counted one year and one month at a time, and the closed forms of libreplace against
    that count. Years are numbers of the Common Era here; `tm_year` is 1900 less. */
module CalendarDays {
  predicate IsLeap(y: int) {
    y % 4 == 0 && (y % 100 != 0 || y % 400 == 0)
  }

  function YearLength(y: int): nat {
    if IsLeap(y) then 366 else 365
  }

  /** The table of month lengths of an ordinary year. */
  const MONTHS: seq<nat> := [31, 28, 31, 30, 31, 30, 31, 31, 30, 31, 30, 31]

  function MonthLength(y: int, m: nat): nat
    requires m < 12
  {
    MONTHS[m] + if m == 1 && IsLeap(y) then 1 else 0
  }

  /** From 1 January 1970 to 1 January of a year, before or after. */
  function DaysToYear(y: int): int
    decreases if y >= 1970 then y - 1970 else 1970 - y
  {
    if y > 1970 then DaysToYear(y - 1) + YearLength(y - 1)
    else if y < 1970 then DaysToYear(y + 1) - YearLength(y)
    else 0
  }

  /** From 1 January to the first of a month, counted from 0. */
  function DaysToMonth(y: int, m: nat): nat
    requires m <= 12
  {
    if m == 0 then 0 else DaysToMonth(y, m - 1) + MonthLength(y, m - 1)
  }

  /** The days between 1 January 1970 and a date. */
  function DaysTo(y: int, m: nat, mday: int): int
    requires m <= 12
  {
    DaysToYear(y) + DaysToMonth(y, m) + mday - 1
  }

  function Seconds(days: int, hour: int, min: int, sec: int): int {
    ((days * 24 + hour) * 60 + min) * 60 + sec
  }

  lemma SecondsAre(years: int, months: int, mday: int, hour: int, min: int, sec: int)
    ensures Seconds(years + months + mday - 1, hour, min, sec)
      == years * 86400 + months * 86400 + (mday - 1) * 86400 + hour * 3600 + min * 60 + sec
  {
  }

  /** C's division, which cuts towards zero. */
  function Cut(a: int, b: nat): int
    requires b > 0
  {
    if a >= 0 then a / b else -((-a) / b)
  }

  function CutRem(a: int, b: nat): int
    requires b > 0
  {
    a - Cut(a, b) * b
  }

  // ----- leap years -----

  /** Leap years up to a year. */
  function Leaps(y: int): int {
    y / 4 - y / 100 + y / 400
  }

  lemma LeapsStep(y: int)
    ensures Leaps(y) == Leaps(y - 1) + if IsLeap(y) then 1 else 0
  {
    Quotients(y);
  }

  lemma Quotients(y: int)
    ensures y / 4 == (y - 1) / 4 + if y % 4 == 0 then 1 else 0
    ensures y / 100 == (y - 1) / 100 + if y % 100 == 0 then 1 else 0
    ensures y / 400 == (y - 1) / 400 + if y % 400 == 0 then 1 else 0
    ensures (y % 400 == 0 ==> y % 100 == 0) && (y % 100 == 0 ==> y % 4 == 0)
  {
  }

  /** The closed form of the days up to a year. */
  lemma {:induction false} YearsClosed(y: int)
    ensures DaysToYear(y) == (y - 1970) * 365 + Leaps(y - 1) - 477
    decreases if y >= 1970 then y - 1970 else 1970 - y
  {
    if y > 1970 {
      YearsClosed(y - 1);
      LeapsStep(y - 1);
    } else if y < 1970 {
      YearsClosed(y + 1);
      LeapsStep(y);
    }
  }

  // ----- the tables -----

  /** `__mon_yday`. */
  const MON_YDAY: seq<seq<nat>> := [
    [0, 31, 59, 90, 120, 151, 181, 212, 243, 273, 304, 334, 365],
    [0, 31, 60, 91, 121, 152, 182, 213, 244, 274, 305, 335, 366]]

  lemma {:induction false} TableIsSum(y: int, m: nat)
    requires m <= 12
    ensures MON_YDAY[if IsLeap(y) then 1 else 0][m] == DaysToMonth(y, m)
  {
    if m > 0 {
      TableIsSum(y, m - 1);
    }
  }

  /** `day_of_the_year`. */
  function DayOfTheYear(y: int, m: nat, mday: int): int
    requires m <= 12
  {
    MON_YDAY[if IsLeap(y) then 1 else 0][m] + (mday - 1)
  }

  /** `day_of_the_year` is the offset from 1 January. */
  lemma DayOfTheYearIs(y: int, m: nat, mday: int)
    requires m <= 12
    ensures DayOfTheYear(y, m, mday) == DaysTo(y, m, mday) - DaysToYear(y)
  {
    TableIsSum(y, m);
  }

  // ----- the day of the week -----

  /** The sum `day_of_the_week` takes the remainder of. */
  function WeekdaySum(y: int, m: nat, mday: int): int
    requires m <= 12
  {
    var corrYear := y - if m < 2 then 1 else 0;
    var fourth := Cut(corrYear, 4);
    -473 + 365 * (y - 1970) + fourth - Cut(fourth, 25) + (if CutRem(fourth, 25) < 0 then 1 else 0)
    + Cut(Cut(fourth, 25), 4) + MON_YDAY[0][m] + mday - 1
  }

  /** `day_of_the_week`. */
  function DayOfTheWeek(y: int, m: nat, mday: int): int
    requires m <= 12
  {
    CutRem(CutRem(WeekdaySum(y, m, mday), 7) + 7, 7)
  }

  lemma CutTwice(c: nat)
    ensures Cut(Cut(c, 4), 25) == c / 100 && Cut(Cut(Cut(c, 4), 25), 4) == c / 400
    ensures Cut(c, 4) == c / 4 && CutRem(Cut(c, 4), 25) >= 0
  {
  }

  lemma RemainderIs(w: int)
    ensures CutRem(CutRem(w, 7) + 7, 7) == w % 7
  {
  }

  /** The days of the months before March are short of the leap day that the table for ordinary years leaves out. */
  lemma OrdinaryTable(y: int, m: nat)
    requires m <= 12
    ensures DaysToMonth(y, m) == MON_YDAY[0][m] + if m >= 2 && IsLeap(y) then 1 else 0
  {
    TableIsSum(y, m);
  }

  /** The day of the week, 0 for Sunday, is right for every date from March of year 0 on; 1 January 1970 was a Thursday. */
  lemma WeekdayRight(y: int, m: nat, mday: int)
    requires m <= 12 && (y >= 1 || (y == 0 && m >= 2))
    ensures DayOfTheWeek(y, m, mday) == (DaysTo(y, m, mday) + 4) % 7
  {
    var c := y - if m < 2 then 1 else 0;
    CutTwice(c);
    YearsClosed(y);
    LeapsStep(y);
    OrdinaryTable(y, m);
    assert WeekdaySum(y, m, mday) == DaysTo(y, m, mday) + 4;
    RightRemainder(y, m, mday);
  }

  lemma NextRemainder(w: int)
    ensures (w + 1) % 7 != w % 7
  {
  }

  lemma CutAtZero(corrYear: int)
    requires corrYear == -1
    ensures Cut(corrYear, 4) == Cut(Cut(corrYear, 4), 25) == CutRem(Cut(corrYear, 4), 25) == Cut(Cut(Cut(corrYear, 4), 25), 4) == 0
    ensures Leaps(corrYear) == -1
  {
  }

  lemma WeekdayOff(y: int, m: nat, mday: int)
    requires y == 0 && m < 2
    ensures WeekdaySum(y, m, mday) == DaysTo(y, m, mday) + 5
  {
    YearsClosed(y);
    OrdinaryTable(y, m);
    CutAtZero(y - 1);
  }

  lemma RightRemainder(y: int, m: nat, mday: int)
    requires m <= 12 && WeekdaySum(y, m, mday) == DaysTo(y, m, mday) + 4
    ensures DayOfTheWeek(y, m, mday) == (DaysTo(y, m, mday) + 4) % 7
  {
    RemainderIs(WeekdaySum(y, m, mday));
  }

  /** In January and February of year 0, the only other months that a four-digit year can name, it is not: the division of
      the year before by 4 cuts towards zero. */
  lemma WeekdayExact(y: int, m: nat, mday: int)
    requires m <= 12 && y >= 0
    ensures DayOfTheWeek(y, m, mday) == (DaysTo(y, m, mday) + 4) % 7 <==> !(y == 0 && m < 2)
  {
    if y == 0 && m < 2 {
      WeekdayOff(y, m, mday);
      RemainderIs(WeekdaySum(y, m, mday));
      NextRemainder(DaysTo(y, m, mday) + 4);
    } else {
      WeekdayRight(y, m, mday);
    }
  }

  // ----- months past December -----

  /** The days of the first n months from January of a year on, into later years. */
  function DaysOfMonths(y: int, n: nat): nat {
    if n == 0 then 0 else DaysOfMonths(y, n - 1) + MonthLength(y + (n - 1) / 12, (n - 1) % 12)
  }

  lemma MonthMore(y: int, n: nat)
    ensures DaysOfMonths(y, n + 1) == DaysOfMonths(y, n) + MonthLength(y + n / 12, n % 12)
  {
  }

  lemma Twelfth(q: nat, r: nat)
    requires r < 12
    ensures (12 * q + r) / 12 == q && (12 * q + r) % 12 == r
  {
  }

  lemma TwelveMonths(y: int)
    ensures DaysToMonth(y, 11) + MonthLength(y, 11) == YearLength(y)
  {
    TableIsSum(y, 11);
  }

  /** The first n months from January of y on reach month r of z. */
  ghost predicate Reach(y: int, n: nat, z: int, r: nat)
    requires r <= 12
  {
    DaysToYear(y) + DaysOfMonths(y, n) == DaysToYear(z) + DaysToMonth(z, r)
  }

  lemma ReachStart(y: int)
    ensures Reach(y, 0, y, 0)
  {
  }

  lemma Decembers(y: int, n: nat, z: int)
    requires z >= y && n == 12 * (z - y) + 11
    requires Reach(y, n, z, 11)
    ensures Reach(y, n + 1, z + 1, 0)
  {
    Twelfth(z - y, 11);
    MonthMore(y, n);
    TwelveMonths(z);
    NextYear(z);
  }

  lemma OtherMonths(y: int, n: nat, z: int, r: nat)
    requires r < 11 && z >= y && n == 12 * (z - y) + r
    requires Reach(y, n, z, r)
    ensures Reach(y, n + 1, z, r + 1)
  {
    Twelfth(z - y, r);
    MonthMore(y, n);
    MonthAfter(z, r);
  }

  lemma MonthAfter(y: int, r: nat)
    requires r < 12
    ensures DaysToMonth(y, r + 1) == DaysToMonth(y, r) + MonthLength(y, r)
  {
  }

  lemma ReachMore(y: int, n: nat)
    requires n > 0 && Reach(y, n - 1, y + (n - 1) / 12, (n - 1) % 12)
    ensures Reach(y, n, y + n / 12, n % 12)
  {
    var q, r := (n - 1) / 12, (n - 1) % 12;
    if r == 11 {
      Decembers(y, n - 1, y + q);
      Twelfth(q + 1, 0);
    } else {
      OtherMonths(y, n - 1, y + q, r);
      Twelfth(q, r + 1);
    }
  }

  /** Twelve months are a year, from any year on. */
  lemma {:induction false} WholeYears(y: int, n: nat)
    ensures Reach(y, n, y + n / 12, n % 12)
  {
    if n == 0 {
      ReachStart(y);
    } else {
      WholeYears(y, n - 1);
      ReachMore(y, n);
    }
  }

  /** One round of the month loop of `rep_mktime`. */
  lemma MonthSeconds(y: int, n: nat, z: int, m: nat, epoch: int)
    requires m < 12 && n == 12 * (z - y) + m && epoch == DaysOfMonths(y, n) * 86400
    ensures epoch + MONTHS[m] * 86400 + (if m == 1 && IsLeap(z) then 86400 else 0) == DaysOfMonths(y, n + 1) * 86400
  {
    MonthMore(y, n);
    Twelfth(z - y, m);
  }

  /** Month 12, which `rep_timegm` takes, is January of the next year. */
  lemma ThirteenthMonth(y: int, mday: int)
    ensures DaysTo(y + 1, 0, mday) == DaysTo(y, 12, mday)
  {
    NextYear(y);
    TableIsSum(y, 12);
  }

  lemma NextYear(y: int)
    ensures DaysToYear(y + 1) == DaysToYear(y) + YearLength(y)
  {
  }

  /** The closed form at the start of `rep_mktime`. */
  lemma StartOfYear(y: int)
    ensures (y - 1970) * (365 * 24 * 60 * 60) + (Leaps(y - 1) - 477) * (24 * 60 * 60) == DaysToYear(y) * 86400
  {
    YearsClosed(y);
  }
}
