/** get_hh_mm_str: the next time of day HH:MM, through broken-down time in UTC and mktime's
    carrying of a day past the end of its month. */
module Clock {
  import opened Options

  // 24 * 60 * 60
  const DAY: nat := 86400
  const D_INTERVAL: nat := 86400

  const D_SUCCESS: int := 0
  const D_INVALID_HH_MM_FORMAT: int := -1
  const D_INVALID_HH_MM_RANGE: int := -2

  /** The value of a struct tm; years count from 1900 and months from 0. */
  datatype Date = Date(year: int, mon: nat, mday: nat, hour: nat, min: nat, sec: nat)

  predicate Leap(year: int) {
    (year + 1900) % 4 == 0 && ((year + 1900) % 100 != 0 || (year + 1900) % 400 == 0)
  }

  function DaysInMonth(year: int, mon: nat): (n: nat)
    ensures 28 <= n <= 31
  {
    if mon == 1 then (if Leap(year) then 29 else 28)
    else if mon == 3 || mon == 5 || mon == 8 || mon == 10 then 30
    else 31
  }

  function DaysInYear(year: int): nat {
    if Leap(year) then 366 else 365
  }

  /** Days from the start of the year to the start of the month; tm_yday of its first day. */
  function MonthStart(year: int, mon: nat): nat {
    if mon == 0 then 0 else MonthStart(year, mon - 1) + DaysInMonth(year, mon - 1)
  }

  /** The day on which the year starts, counted from the Epoch: the year terms of section 4.16
      of the POSIX.1-2017 Base Definitions, over 86400. */
  function YearStart(year: int): int {
    (year - 70) * 365 + (year - 69) / 4 - (year - 1) / 100 + (year + 299) / 400
  }

  /** The day of a date, whether or not its mday stays within its month. */
  function DayNumber(date: Date): int {
    YearStart(date.year) + MonthStart(date.year, date.mon) + date.mday - 1
  }

  function Seconds(date: Date): int {
    date.sec + 60 * date.min + 3600 * date.hour + DAY * DayNumber(date)
  }

  predicate ValidDate(date: Date) {
    && date.year >= 70 && date.mon < 12
    && 1 <= date.mday <= DaysInMonth(date.year, date.mon)
    && date.hour < 24 && date.min < 60 && date.sec < 60
  }

  // ---- the calendar

  lemma YearLength(year: int)
    requires year >= 70
    ensures YearStart(year + 1) == YearStart(year) + DaysInYear(year)
  {
    Fours(year);
    Hundreds(year);
    FourHundreds(year);
    Nested(year + 1900);
  }

  // each term of the formula grows by one exactly in the years its divisor divides

  lemma Fours(year: int)
    ensures (year - 68) / 4 == (year - 69) / 4 + if (year + 1900) % 4 == 0 then 1 else 0
  {
  }

  lemma Hundreds(year: int)
    ensures year / 100 == (year - 1) / 100 + if (year + 1900) % 100 == 0 then 1 else 0
  {
  }

  lemma FourHundreds(year: int)
    ensures (year + 300) / 400 == (year + 299) / 400 + if (year + 1900) % 400 == 0 then 1 else 0
  {
  }

  lemma Nested(n: int)
    ensures n % 400 == 0 ==> n % 100 == 0
    ensures n % 100 == 0 ==> n % 4 == 0
  {
  }

  lemma MonthsFillYear(year: int)
    ensures MonthStart(year, 12) == DaysInYear(year)
    ensures MonthStart(year, 11) == DaysInYear(year) - 31
  {
    var feb := DaysInMonth(year, 1);
    assert MonthStart(year, 1) == 31;
    assert MonthStart(year, 2) == 31 + feb;
    assert MonthStart(year, 3) == 62 + feb;
    assert MonthStart(year, 4) == 92 + feb;
    assert MonthStart(year, 5) == 123 + feb;
    assert MonthStart(year, 6) == 153 + feb;
    assert MonthStart(year, 7) == 184 + feb;
    assert MonthStart(year, 8) == 215 + feb;
    assert MonthStart(year, 9) == 245 + feb;
    assert MonthStart(year, 10) == 276 + feb;
    assert MonthStart(year, 11) == 306 + feb;
  }

  /** The days past the end of the month, in the month after it. */
  function NextMonth(date: Date): Date
    requires date.mon < 12 && date.mday > DaysInMonth(date.year, date.mon)
  {
    var days := DaysInMonth(date.year, date.mon);
    if date.mon < 11 then date.(mon := date.mon + 1, mday := date.mday - days)
    else date.(year := date.year + 1, mon := 0, mday := date.mday - days)
  }

  lemma CarryOnce(date: Date)
    requires date.year >= 70 && date.mon < 12 && date.mday > DaysInMonth(date.year, date.mon)
    ensures Seconds(NextMonth(date)) == Seconds(date)
  {
    if date.mon == 11 {
      YearLength(date.year);
      MonthsFillYear(date.year);
    }
  }

  /** mktime's carry: days past the end of a month go to the next month, and from December to
      the next year. */
  function Carried(date: Date): Date
    requires date.mon < 12
    decreases date.mday
  {
    if date.mday <= DaysInMonth(date.year, date.mon) then date else Carried(NextMonth(date))
  }

  /** The carry keeps the day, across months, year ends and leap days, and makes the date valid. */
  lemma {:induction false} CarriedIsSameDay(date: Date)
    requires date.year >= 70 && date.mon < 12 && date.mday >= 1
    requires date.hour < 24 && date.min < 60 && date.sec < 60
    ensures ValidDate(Carried(date)) && Seconds(Carried(date)) == Seconds(date)
    ensures Carried(date) == date <==> ValidDate(date)
    decreases date.mday
  {
    if date.mday > DaysInMonth(date.year, date.mon) {
      CarryOnce(date);
      CarriedIsSameDay(NextMonth(date));
    }
  }

  // ---- from seconds to a date

  function YearOf(day: nat, year: int): (y: int)
    requires year >= 70 && YearStart(year) <= day
    ensures y >= 70 && YearStart(y) <= day < YearStart(y) + DaysInYear(y)
    decreases day - YearStart(year)
  {
    YearLength(year);
    if day < YearStart(year) + DaysInYear(year) then year else YearOf(day, year + 1)
  }

  function MonthOf(year: int, yday: nat, mon: nat): (m: nat)
    requires mon < 12 && MonthStart(year, mon) <= yday < DaysInYear(year)
    ensures m < 12 && MonthStart(year, m) <= yday < MonthStart(year, m) + DaysInMonth(year, m)
    decreases 12 - mon
  {
    MonthsFillYear(year);
    if mon == 11 || yday < MonthStart(year, mon) + DaysInMonth(year, mon) then mon else MonthOf(year, yday, mon + 1)
  }

  /** Midnight at the start of a day. */
  function Midnight(day: nat): Date {
    var year := YearOf(day, 70);
    var yday := day - YearStart(year);
    var mon := MonthOf(year, yday, 0);
    Date(year, mon, yday - MonthStart(year, mon) + 1, 0, 0, 0)
  }

  /** The time of day that is `rest` seconds after midnight. */
  function After(midnight: Date, rest: nat): Date {
    midnight.(hour := rest / 3600, min := rest % 3600 / 60, sec := rest % 3600 % 60)
  }

  /** localtime, in UTC. */
  function Broken(time: nat): Date {
    After(Midnight(time / DAY), time % DAY)
  }

  lemma MidnightIsThatDay(day: nat)
    ensures ValidDate(Midnight(day)) && DayNumber(Midnight(day)) == day
  {
  }

  lemma AfterMidnight(midnight: Date, rest: nat)
    requires ValidDate(midnight) && rest < DAY
    ensures ValidDate(After(midnight, rest)) && DayNumber(After(midnight, rest)) == DayNumber(midnight)
    ensures Seconds(After(midnight, rest)) == DAY * DayNumber(midnight) + rest
  {
    Hours(rest);
    OfDay(midnight, After(midnight, rest));
  }

  lemma Hours(rest: nat)
    requires rest < DAY
    ensures var hour, min, sec := rest / 3600, rest % 3600 / 60, rest % 3600 % 60;
      hour < 24 && min < 60 && sec < 60 && sec + 60 * min + 3600 * hour == rest
  {
  }

  lemma OfDay(midnight: Date, date: Date)
    requires (date.year, date.mon, date.mday) == (midnight.year, midnight.mon, midnight.mday)
    ensures DayNumber(date) == DayNumber(midnight)
    ensures Seconds(date) == DAY * DayNumber(midnight) + (date.sec + 60 * date.min + 3600 * date.hour)
  {
  }

  lemma BrokenIsSameTime(time: nat)
    ensures ValidDate(Broken(time)) && Seconds(Broken(time)) == time
    ensures DayNumber(Broken(time)) == time / DAY
  {
    var day, rest := time / DAY, time % DAY;
    assert Broken(time) == After(Midnight(day), rest);
    SameTime(day, rest);
  }

  lemma SameTime(day: nat, rest: nat)
    requires rest < DAY
    ensures var date := After(Midnight(day), rest);
      ValidDate(date) && DayNumber(date) == day && Seconds(date) == DAY * day + rest
  {
    MidnightIsThatDay(day);
    AfterMidnight(Midnight(day), rest);
  }

  // ---- the source's function

  /** struct tm. */
  class Tm {
    var year: int
    var mon: nat
    var mday: nat
    var hour: nat
    var min: nat
    var sec: nat

    constructor LocalTime(now: nat)
      ensures View() == Broken(now)
    {
      var date := Broken(now);
      year, mon, mday, hour, min, sec := date.year, date.mon, date.mday, date.hour, date.min, date.sec;
    }

    function View(): Date
      reads this
    {
      Date(year, mon, mday, hour, min, sec)
    }

    /** mktime: normalizes the fields in place and returns the time. */
    method Mktime() returns (time: int)
      requires year >= 70 && mon < 12 && mday >= 1 && hour < 24 && min < 60 && sec < 60
      modifies this
      ensures View() == Carried(old(View())) && ValidDate(View())
      ensures time == Seconds(old(View())) == Seconds(View())
    {
      CarriedIsSameDay(View());
      while mday > DaysInMonth(year, mon)
        invariant mon < 12 && Carried(View()) == Carried(old(View()))
        decreases mday
      {
        mday := mday - DaysInMonth(year, mon);
        if mon < 11 {
          mon := mon + 1;
        } else {
          year, mon := year + 1, 0;
        }
      }
      time := Seconds(View());
    }
  }

  /** get_hh_mm_str: `parsed` is what sscanf made of "HH:MM". On success the result is the
      least time not before `now` whose time of day is HH:MM:00. */
  method GetHhMmStr(parsed: Option<(nat, nat)>, now: nat) returns (code: int, next: int)
    ensures code == if parsed.None? then -1 else if parsed.value.0 > 23 || parsed.value.1 > 59 then -2 else 0
    ensures code == 0 ==> IsNext(now, 3600 * parsed.value.0 + 60 * parsed.value.1, next)
  {
    next := 0;
    if parsed.None? {
      return D_INVALID_HH_MM_FORMAT, 0;
    }
    var hour, minute := parsed.value.0, parsed.value.1;
    if hour > 23 || minute > 59 {
      return D_INVALID_HH_MM_RANGE, 0;
    }
    var target := new Tm.LocalTime(now);
    ghost var today := AtTimeOf(now, hour, minute);
    target.min := minute;
    target.hour := hour;
    target.sec := 0;
    next := NotBefore(target, now);
    TodayOrTomorrow(now, 3600 * hour + 60 * minute, next);
    code := D_SUCCESS;
  }

  /** The time of `target`, or of the day after it when that is past. */
  method NotBefore(target: Tm, now: nat) returns (next: int)
    requires ValidDate(target.View())
    modifies target
    ensures var time := Seconds(old(target.View())); next == if time < now then time + DAY else time
  {
    ghost var today := target.View();
    CarriedIsSameDay(today);
    var time := target.Mktime();
    assert target.View() == today && time == Seconds(today);
    if time - now < 0 {
      target.mday := target.mday + 1;
      DayLater(today);
    }
    next := target.Mktime();
  }

  /** Today's date with another time of day. */
  lemma AtTimeOf(now: nat, hour: nat, minute: nat) returns (date: Date)
    requires hour < 24 && minute < 60
    ensures date == Broken(now).(hour := hour, min := minute, sec := 0) && ValidDate(date)
    ensures Seconds(date) == DAY * (now / DAY) + (3600 * hour + 60 * minute)
  {
    BrokenIsSameTime(now);
    date := Broken(now).(hour := hour, min := minute, sec := 0);
    assert DayNumber(date) == DayNumber(Broken(now));
  }

  lemma DayLater(date: Date)
    ensures Seconds(date.(mday := date.mday + 1)) == Seconds(date) + DAY
  {
  }

  /** `next` is the least time from `now` on that falls on the second `ofDay` of a day. */
  ghost predicate IsNext(now: int, ofDay: int, next: int) {
    && next >= now && next % DAY == ofDay
    && forall t :: now <= t < next ==> t % DAY != ofDay
  }

  lemma TodayOrTomorrow(now: nat, ofDay: nat, next: int)
    requires ofDay < DAY
    requires var today := DAY * (now / DAY) + ofDay; next == if today < now then today + DAY else today
    ensures IsNext(now, ofDay, next)
  {
    var day := next / DAY;
    assert next == DAY * day + ofDay by {
      assert next == DAY * (now / DAY) + ofDay || next == DAY * (now / DAY + 1) + ofDay;
    }
    forall t | now <= t < next ensures t % DAY != ofDay {
      ADayApart(t, next);
    }
  }

  lemma ADayApart(t: int, next: int)
    requires t < next
    ensures t % DAY == next % DAY ==> t + DAY <= next
  {
  }

  /** The first firing is less than a day away, and each later one, a whole number of intervals
      after it, is at the same time of day. */
  lemma LaterFirings(now: int, ofDay: int, next: int, k: nat)
    requires 0 <= ofDay < DAY && IsNext(now, ofDay, next)
    ensures next < now + DAY
    ensures (next + k * D_INTERVAL) % DAY == ofDay
  {
    assert (next - DAY) % DAY == next % DAY;
    assert (next + k * D_INTERVAL) == DAY * (next / DAY + k) + ofDay;
  }
}
