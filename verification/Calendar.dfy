/** `rep_mktime` up to the epoch value and `rep_timegm` (src/external/talloc/lib/replace). */
module Calendar {
  import opened CalendarDays

  /** `unsigned` arithmetic is modulo this. */
  const UNSIGNED_MODULUS: nat := 0x1_0000_0000

  /** `struct tm`, the fields that count. */
  datatype Tm = Tm(sec: int, min: int, hour: int, mday: int, mon: int, year: int)

  /** `rep_mktime` before it asks for the local time: months past December run into the years after, and the result is the
      seconds from the epoch. */
  method Mktime(t: Tm) returns (epoch: int)
    ensures t.year < 70 ==> epoch == -1
    ensures t.year >= 70 ==>
      var mon := if t.mon < 0 then 0 else t.mon;
      epoch == Seconds(DaysTo(1900 + t.year + mon / 12, mon % 12, t.mday), t.hour, t.min, t.sec)
  {
    if t.year < 70 { return -1; }
    ghost var mon := if t.mon < 0 then 0 else t.mon;
    WholeYears(1900 + t.year, mon);
    SecondsAre(DaysToYear(1900 + t.year), DaysOfMonths(1900 + t.year, mon), t.mday, t.hour, t.min, t.sec);
    epoch := StartYear(t);
    epoch := AddMonths(t, epoch);
    epoch := epoch + (t.mday - 1) * (24 * 60 * 60);
    epoch := epoch + t.hour * (60 * 60) + t.min * 60 + t.sec;
  }

  /** The closed form that `rep_mktime` starts with. */
  method StartYear(t: Tm) returns (epoch: int)
    requires t.year >= 70
    ensures epoch == DaysToYear(1900 + t.year) * 86400
  {
    var n := t.year + 1900 - 1;
    epoch := (t.year - 70) * (365 * 24 * 60 * 60)
      + ((n / 4 - n / 100 + n / 400) - (1969 / 4 - 1969 / 100 + 1969 / 400)) * (24 * 60 * 60);
    StartOfYear(n + 1);
  }

  /** The month loop of `rep_mktime`. */
  method AddMonths(t: Tm, start: int) returns (epoch: int)
    ensures epoch == start + DaysOfMonths(1900 + t.year, if t.mon < 0 then 0 else t.mon) * 86400
  {
    var y, m: nat := t.year + 1900, 0;
    epoch := start;
    var i: nat := 0;
    while i < t.mon
      invariant i == 0 || i <= t.mon
      invariant m < 12 && i == 12 * (y - 1900 - t.year) + m
      invariant epoch - start == DaysOfMonths(1900 + t.year, i) * 86400
    {
      MonthSeconds(1900 + t.year, i, y, m, epoch - start);
      epoch := epoch + MONTHS[m] * (24 * 60 * 60);
      if m == 1 && IsLeap(y) {
        epoch := epoch + 24 * 60 * 60;
      }
      m := m + 1;
      if m > 11 {
        m := 0;
        y := y + 1;
      }
      i := i + 1;
    }
  }

  /** What `rep_timegm` accepts. */
  predicate Accepted(t: Tm) {
    0 <= t.mon <= 12 && t.mday <= 31 && t.min <= 60 && t.sec <= 60 && t.hour <= 24
  }

  /** A date and time of the calendar. */
  predicate Proper(t: Tm) {
    0 <= t.mon < 12 && 1 <= t.mday <= MonthLength(1900 + t.year, t.mon) && 0 <= t.hour < 24 && 0 <= t.min < 60 && 0 <= t.sec < 60
  }

  /** The year that `rep_timegm` sees, which takes `tm_year` as an `unsigned`. */
  function UnsignedYear(year: int): int {
    (1900 + year) % UNSIGNED_MODULUS
  }

  /** The days of the years from 1970 on, up to a value of the unsigned year counter. */
  function DaysCounted(i: nat): nat {
    if i <= 70 then 0 else DaysCounted(i - 1) + YearLength(UnsignedYear(i - 1))
  }

  /** While the counted year does not wrap around, those are the days since the epoch. */
  lemma {:induction false} CountedFrom1970(i: nat)
    requires 70 <= i && 1900 + i <= UNSIGNED_MODULUS
    ensures DaysCounted(i) == DaysToYear(1900 + i)
  {
    if i > 70 {
      CountedFrom1970(i - 1);
      NextYear(1900 + (i - 1));
    }
  }

  /** `rep_timegm`, for an `int` of `tm_year`. No proper time is rejected. A year before 1970 counts as 1970; one before 1900
      is a large number. */
  method Timegm(t: Tm) returns (res: int)
    requires -0x8000_0000 <= t.year < 0x8000_0000
    ensures !Accepted(t) ==> res == 0
    ensures Accepted(t) ==>
      var days := DaysCounted(t.year % UNSIGNED_MODULUS) + DaysToMonth(UnsignedYear(t.year), t.mon) + t.mday - 1;
      res == Seconds(days, t.hour, t.min, t.sec)
    ensures (Accepted(t) || Proper(t)) && t.year >= 70 ==> res == Seconds(DaysTo(1900 + t.year, t.mon, t.mday), t.hour, t.min, t.sec)
  {
    if t.mon > 12 || t.mon < 0 || t.mday > 31 || t.min > 60 || t.sec > 60 || t.hour > 24 {
      return 0;
    }
    res := CountYears(t.year);
    ghost var start := res;
    var i := 0;
    while i < t.mon
      invariant 0 <= i <= t.mon && res == start + DaysToMonth(UnsignedYear(t.year), i)
    {
      res := res + MonthLength(UnsignedYear(t.year), i);
      i := i + 1;
    }
    res := res + t.mday - 1;
    res := res * 24;
    res := res + t.hour;
    res := res * 60;
    res := res + t.min;
    res := res * 60;
    res := res + t.sec;
  }

  /** The year loop of `rep_timegm`. */
  method CountYears(year: int) returns (res: int)
    requires -0x8000_0000 <= year < 0x8000_0000
    ensures res == DaysCounted(year % UNSIGNED_MODULUS)
    ensures year >= 70 ==> res == DaysToYear(1900 + year)
  {
    res := 0;
    var i, end := 70, year % UNSIGNED_MODULUS;
    while i < end
      invariant 70 <= i && (i <= end || i == 70) && res == DaysCounted(i)
    {
      res := res + (if IsLeap(UnsignedYear(i)) then 366 else 365);
      i := i + 1;
    }
    if year >= 70 { CountedFrom1970(year); }
  }

  lemma ProperAccepted(t: Tm)
    requires Proper(t)
    ensures Accepted(t)
  {
  }

  lemma SameDays(year: int, mon: nat, mday: int)
    requires mon <= 12
    ensures DaysTo(year + mon / 12, mon % 12, mday) == DaysTo(year, mon, mday)
  {
    if mon == 12 { ThirteenthMonth(year, mday); }
  }

  /** For every broken-down time from 1970 on that is proper or that `rep_timegm` accepts, the closed form and the sum give
      the same seconds. */
  method Agree(t: Tm) returns (a: int, b: int)
    requires 70 <= t.year < 0x8000_0000 && (Accepted(t) || Proper(t))
    ensures a == b
  {
    if Proper(t) { ProperAccepted(t); }
    SameDays(1900 + t.year, t.mon, t.mday);
    a := Mktime(t);
    b := Timegm(t);
  }
}
