/** Broken-down calendar time and the number of milliseconds since the Epoch. */
module TmToTimes {
  /** As in the C library: years count from 1900, months from 0, days of the month from 1. */
  datatype Tm = Tm(year: int, mon: int, mday: int, hour: int, min: int, sec: int)

  const MDAYS: seq<int> := [31, 28, 31, 30, 31, 30, 31, 31, 30, 31, 30, 31]
  const CUMUL_MDAYS: seq<int> := [0, 31, 59, 90, 120, 151, 181, 212, 243, 273, 304, 334]

  predicate IsLeap(year: int) {
    year % 4 == 0 && (year % 100 != 0 || year % 400 == 0)
  }

  function DaysInMonth(year: int, month: int): int
    requires 0 <= month <= 11
  {
    MDAYS[month] + if IsLeap(year) && month == 1 then 1 else 0
  }

  /** A date and time that the calendar has, from 1970 on. */
  predicate ValidTm(tm: Tm) {
    && tm.year >= 70
    && 0 <= tm.mon <= 11
    && 1 <= tm.mday <= DaysInMonth(tm.year + 1900, tm.mon)
    && 0 <= tm.hour <= 23 && 0 <= tm.min <= 59 && 0 <= tm.sec <= 59
  }

  /** April, June, September and November have 30 days, February has 28 or 29, and the others 31. */
  lemma MonthLengths(year: int, month: int)
    requires 0 <= month <= 11
    ensures DaysInMonth(year, month) == if month in {3, 5, 8, 10} then 30
                                        else if month != 1 then 31
                                        else if year % 400 == 0 || (year % 4 == 0 && year % 100 != 0) then 29 else 28
  {
  }

  // ---- The calendar, counted month by month ----

  /** The days of a year before a month. */
  function DaysBefore(year: int, month: nat): (n: nat)
    requires month <= 11
    ensures n == CUMUL_MDAYS[month] + if IsLeap(year) && month > 1 then 1 else 0
  {
    if month == 0 then 0 else DaysBefore(year, month - 1) + DaysInMonth(year, month - 1)
  }

  /** The day of the year, from 0: what the C library calls tm_yday. */
  function YearDay(tm: Tm): int
    requires ValidTm(tm)
  {
    DaysBefore(tm.year + 1900, tm.mon) + tm.mday - 1
  }

  /** Seconds since the Epoch, as section 4.16 of IEEE Std 1003.1-2017 (Base Definitions)
      defines them. */
  function EpochSeconds(tm: Tm): int
    requires ValidTm(tm)
  {
    tm.sec + tm.min * 60 + tm.hour * 3600 + YearDay(tm) * 86400 + (tm.year - 70) * 31536000
    + (tm.year - 69) / 4 * 86400 - (tm.year - 1) / 100 * 86400 + (tm.year + 299) / 400 * 86400
  }

  /** Two well-known seconds. */
  lemma KnownSeconds(tm: Tm)
    ensures tm == Tm(101, 8, 9, 1, 46, 40) ==> ValidTm(tm) && EpochSeconds(tm) == 1_000_000_000
    ensures tm == Tm(138, 0, 19, 3, 14, 7) ==> ValidTm(tm) && EpochSeconds(tm) == 0x7FFF_FFFF
  {
    hide DaysBefore;
  }

  method TmToTime(tm: Tm) returns (ms: int)
    ensures ms == if ValidTm(tm) then 1000 * EpochSeconds(tm) else -1
  {
    var year, month, day := tm.year + 1900, tm.mon, tm.mday - 1;
    var hour, min, sec := tm.hour, tm.min, tm.sec;
    var expiryInLeapYear := IsLeap(year);
    if year < 1970 || month < 0 || month > 11 {
      return -1;
    }
    if day < 0 || day >= MDAYS[month] + (if expiryInLeapYear && month == 2 - 1 then 1 else 0) {
      return -1;
    }
    if hour < 0 || hour > 23 || min < 0 || min > 59 || sec < 0 || sec > 59 {
      return -1;
    }
    day := day + CUMUL_MDAYS[month];
    day := day + (year / 4 - 1970 / 4) - (year / 100 - 1970 / 100) + (year / 400 - 1970 / 400);
    if expiryInLeapYear && month <= 2 - 1 {
      day := day - 1;
    }
    LeapDays(year);
    var second := ((((year - 1970) * 365 + day) * 24 + hour) * 60 + min) * 60 + sec;
    ms := second * 1000;
  }

  /** Counting leap years up to this one, and taking back one that is still ahead, is the same as
      counting those before it. */
  lemma LeapDays(year: int)
    requires year >= 1970
    ensures var y := year - 1900;
            (year / 4 - 1970 / 4) - (year / 100 - 1970 / 100) + (year / 400 - 1970 / 400)
            == (y - 69) / 4 - (y - 1) / 100 + (y + 299) / 400 + if IsLeap(year) then 1 else 0
  {
    assert year / 4 - 492 == (year - 1969) / 4 + if year % 4 == 0 then 1 else 0;
    assert year / 100 - 19 == (year - 1901) / 100 + if year % 100 == 0 then 1 else 0;
    assert year / 400 - 4 == (year - 1601) / 400 + if year % 400 == 0 then 1 else 0;
    FourHundreds(year);
  }

  lemma FourHundreds(year: int)
    ensures year % 400 == 0 ==> year % 100 == 0
    ensures year % 100 == 0 ==> year % 4 == 0
  {
    if year % 400 == 0 {
      MultipleOf100(year, 4 * (year / 400));
    }
    if year % 100 == 0 {
      MultipleOf4(year, 25 * (year / 100));
    }
  }

  lemma MultipleOf100(n: int, k: int)
    requires n == 100 * k
    ensures n % 100 == 0
  {
  }

  lemma MultipleOf4(n: int, k: int)
    requires n == 4 * k
    ensures n % 4 == 0
  {
  }

  // ---- Running through the calendar ----

  /** One second later, carrying into minutes, hours, days, months and years. */
  function NextSecond(tm: Tm): (r: Tm)
    requires ValidTm(tm)
    ensures ValidTm(r)
  {
    if tm.sec < 59 then tm.(sec := tm.sec + 1)
    else if tm.min < 59 then tm.(sec := 0, min := tm.min + 1)
    else if tm.hour < 23 then tm.(sec := 0, min := 0, hour := tm.hour + 1)
    else if tm.mday < DaysInMonth(tm.year + 1900, tm.mon) then Tm(tm.year, tm.mon, tm.mday + 1, 0, 0, 0)
    else if tm.mon < 11 then Tm(tm.year, tm.mon + 1, 1, 0, 0, 0)
    else Tm(tm.year + 1, 0, 1, 0, 0, 0)
  }

  const EPOCH := Tm(70, 0, 1, 0, 0, 0)

  /** The day on which a second falls, counted from the Epoch. */
  function EpochDay(tm: Tm): int
    requires ValidTm(tm)
  {
    YearDay(tm) + YearStart(tm.year)
  }

  lemma SecondsOfDay(tm: Tm)
    requires ValidTm(tm)
    ensures EpochSeconds(tm) == 86400 * EpochDay(tm) + 3600 * tm.hour + 60 * tm.min + tm.sec
  {
  }

  /** The day, counted from the Epoch, on which a year starts. */
  function YearStart(y: int): int {
    (y - 70) * 365 + (y - 69) / 4 - (y - 1) / 100 + (y + 299) / 400
  }

  /** The next year starts 365 days later, or 366 after a leap year. */
  lemma YearLength(y: int)
    ensures YearStart(y + 1) == YearStart(y) + 365 + if IsLeap(y + 1900) then 1 else 0
  {
    assert (y - 68) / 4 == (y - 69) / 4 + if (y + 1900) % 4 == 0 then 1 else 0;
    assert y / 100 == (y - 1) / 100 + if (y + 1900) % 100 == 0 then 1 else 0;
    assert (y + 300) / 400 == (y + 299) / 400 + if (y + 1900) % 400 == 0 then 1 else 0;
    FourHundreds(y + 1900);
  }

  /** The next day is one day more. */
  lemma NextDayAddsOne(tm: Tm)
    requires ValidTm(tm) && tm.hour == 23 && tm.min == 59 && tm.sec == 59
    ensures EpochDay(NextSecond(tm)) == EpochDay(tm) + 1
  {
    hide IsLeap, YearStart, DaysBefore;
    var next := NextSecond(tm);
    if next.year != tm.year {
      assert DaysInMonth(tm.year + 1900, 11) == 31;
      NewYear(tm);
    } else if next.mon != tm.mon {
      NewMonth(tm);
    }
  }

  lemma NewMonth(tm: Tm)
    requires ValidTm(tm) && tm.mon < 11 && tm.mday == DaysInMonth(tm.year + 1900, tm.mon)
    ensures YearDay(Tm(tm.year, tm.mon + 1, 1, 0, 0, 0)) == YearDay(tm) + 1
  {
  }

  lemma NewYear(tm: Tm)
    requires ValidTm(tm) && tm.mon == 11 && tm.mday == 31
    ensures EpochDay(Tm(tm.year + 1, 0, 1, 0, 0, 0)) == EpochDay(tm) + 1
  {
    YearLength(tm.year);
    assert YearDay(tm) == 364 + if IsLeap(tm.year + 1900) then 1 else 0;
    assert YearDay(Tm(tm.year + 1, 0, 1, 0, 0, 0)) == 0;
    hide IsLeap, YearStart, YearDay;
  }

  /** One second later is one second more, across every boundary of the calendar. */
  lemma NextSecondAddsOne(tm: Tm)
    requires ValidTm(tm)
    ensures EpochSeconds(NextSecond(tm)) == EpochSeconds(tm) + 1
  {
    SecondsOfDay(tm);
    SecondsOfDay(NextSecond(tm));
    if tm.hour == 23 && tm.min == 59 && tm.sec == 59 {
      NextDayAddsOne(tm);
      StartsAtMidnight(tm);
    } else {
      StaysOnDay(tm);
    }
    hide EpochSeconds, EpochDay, NextSecond, ValidTm;
  }

  lemma StartsAtMidnight(tm: Tm)
    requires ValidTm(tm) && tm.hour == 23 && tm.min == 59 && tm.sec == 59
    ensures var next := NextSecond(tm); next.hour == 0 && next.min == 0 && next.sec == 0
  {
    hide IsLeap, DaysInMonth;
  }

  lemma StaysOnDay(tm: Tm)
    requires ValidTm(tm) && !(tm.hour == 23 && tm.min == 59 && tm.sec == 59)
    ensures var next := NextSecond(tm);
            EpochDay(next) == EpochDay(tm)
            && 3600 * next.hour + 60 * next.min + next.sec == 3600 * tm.hour + 60 * tm.min + tm.sec + 1
  {
    hide IsLeap, DaysInMonth, DaysBefore, YearStart;
  }

  /** Earlier in the calendar, field by field. */
  predicate Earlier(a: Tm, b: Tm) {
    a.year < b.year || (a.year == b.year && (a.mon < b.mon || (a.mon == b.mon && (a.mday < b.mday || (a.mday == b.mday
    && (a.hour < b.hour || (a.hour == b.hour && (a.min < b.min || (a.min == b.min && a.sec < b.sec)))))))))
  }

  /** What follows a date immediately is the least one after it. */
  lemma NextSecondIsNext(a: Tm, b: Tm)
    requires ValidTm(a) && ValidTm(b)
    ensures Earlier(a, b) <==> b == NextSecond(a) || Earlier(NextSecond(a), b)
  {
  }

  lemma {:induction false} LaterYearsStartLater(y: int, z: int)
    requires y < z
    ensures YearStart(y) + 365 + (if IsLeap(y + 1900) then 1 else 0) <= YearStart(z)
    decreases z - y
  {
    YearLength(z - 1);
    if y < z - 1 {
      LaterYearsStartLater(y, z - 1);
    }
    hide YearStart, IsLeap;
  }

  lemma {:induction false} LaterMonthsStartLater(year: int, m: nat, n: nat)
    requires m < n <= 11
    ensures DaysBefore(year, m) + DaysInMonth(year, m) <= DaysBefore(year, n)
  {
    if m < n - 1 {
      LaterMonthsStartLater(year, m, n - 1);
    }
  }

  lemma YearDayRange(tm: Tm)
    requires ValidTm(tm)
    ensures 0 <= YearDay(tm) < 365 + if IsLeap(tm.year + 1900) then 1 else 0
  {
  }

  lemma LaterDaysAreMore(a: Tm, b: Tm)
    requires ValidTm(a) && ValidTm(b)
    requires a.year < b.year || (a.year == b.year && (a.mon < b.mon || (a.mon == b.mon && a.mday < b.mday)))
    ensures EpochDay(a) < EpochDay(b)
  {
    if a.year < b.year {
      LaterYearsStartLater(a.year, b.year);
      YearDayRange(a);
      YearDayRange(b);
      hide YearDay;
    } else if a.mon < b.mon {
      LaterMonthsStartLater(a.year + 1900, a.mon, b.mon);
    }
    hide YearStart, DaysBefore, IsLeap;
  }

  /** The result is strictly increasing in the order of the calendar. */
  lemma StrictlyIncreasing(a: Tm, b: Tm)
    requires ValidTm(a) && ValidTm(b)
    ensures EpochSeconds(a) < EpochSeconds(b) <==> Earlier(a, b)
    ensures EpochSeconds(a) == EpochSeconds(b) <==> a == b
  {
    SecondsOfDay(a);
    SecondsOfDay(b);
    if (a.year, a.mon, a.mday) != (b.year, b.mon, b.mday) {
      if Earlier(a, b) {
        LaterDaysAreMore(a, b);
      } else {
        LaterDaysAreMore(b, a);
      }
    }
    hide EpochSeconds, YearDay, YearStart;
  }

  /** The calendar after a number of seconds, counted one by one from the Epoch. */
  ghost function Calendar(seconds: nat): (tm: Tm)
    ensures ValidTm(tm)
  {
    if seconds == 0 then
      EpochIsZero();
      EPOCH
    else
      NextSecond(Calendar(seconds - 1))
  }

  lemma EpochIsZero()
    ensures ValidTm(EPOCH) && EpochSeconds(EPOCH) == 0
  {
    assert DaysInMonth(1970, 0) == 31;
    assert YearDay(EPOCH) == 0;
    hide YearDay;
  }

  lemma {:induction false} CalendarCounts(seconds: nat)
    ensures EpochSeconds(Calendar(seconds)) == seconds
  {
    hide EpochSeconds, NextSecond, ValidTm;
    if seconds == 0 {
      EpochIsZero();
    } else {
      CalendarCounts(seconds - 1);
      NextSecondAddsOne(Calendar(seconds - 1));
    }
  }

  /** Counting seconds from the Epoch reaches every valid time, and reaches it when the formula
      says. */
  lemma CalendarInverse(tm: Tm)
    requires ValidTm(tm)
    ensures EpochSeconds(tm) >= 0 && Calendar(EpochSeconds(tm)) == tm
  {
    NotBeforeTheEpoch(tm);
    hide *;
    CalendarCounts(EpochSeconds(tm));
    StrictlyIncreasing(tm, Calendar(EpochSeconds(tm)));
  }

  lemma NotBeforeTheEpoch(tm: Tm)
    requires ValidTm(tm)
    ensures EpochSeconds(tm) >= 0
  {
    SecondsOfDay(tm);
    YearDayRange(tm);
    assert YearStart(70) == 0;
    if tm.year > 70 {
      LaterYearsStartLater(70, tm.year);
    }
    hide EpochSeconds, YearDay, YearStart, IsLeap, DaysInMonth;
  }

  /** A 64-bit result holds the milliseconds of some 292 million years. */
  lemma FitsInt64(tm: Tm)
    requires ValidTm(tm) && tm.year <= 292_000_000
    ensures 1000 * EpochSeconds(tm) < 0x8000_0000_0000_0000
  {
    SecondsOfDay(tm);
    YearDayRange(tm);
    hide EpochSeconds, YearDay;
  }
}
