/** Generated names and the instants they were generated at: the clock that names a recording is the
    local one, which is set back. */
module OutputTimes {
  import opened OutputNames

  // ------------------------------------------------------------------------------
  // The calendar
  // ------------------------------------------------------------------------------

  predicate Leap(year: nat) {
    year % 4 == 0 && (year % 100 != 0 || year % 400 == 0)
  }

  function DaysInYear(year: nat): nat {
    if Leap(year) then 366 else 365
  }

  function DaysInMonth(year: nat, month: nat): nat {
    if month == 2 then if Leap(year) then 29 else 28
    else if month == 4 || month == 6 || month == 9 || month == 11 then 30
    else 31
  }

  /** How many days there are before a year. */
  function YearStart(year: nat): nat {
    if year == 0 then 0 else YearStart(year - 1) + DaysInYear(year - 1)
  }

  /** How many days of a year there are before a month. */
  function MonthStart(year: nat, month: nat): nat {
    if month <= 1 then 0 else MonthStart(year, month - 1) + DaysInMonth(year, month - 1)
  }

  /** A date and time there is, in a year that needs no sign. */
  predicate OnCalendar(c: Civil) {
    Valid(c) && c.year >= 0 && c.day <= DaysInMonth(c.year, c.month)
  }

  function DayOf(c: Civil): int
    requires OnCalendar(c)
  {
    YearStart(c.year) + MonthStart(c.year, c.month) + c.day - 1
  }

  function TimeOf(c: Civil): nat {
    (c.hour * 60 + c.minute) * 60 + c.second
  }

  /** The seconds a civil clock has counted when it shows `c`. */
  function SecondsOf(c: Civil): int
    requires OnCalendar(c)
  {
    DayOf(c) * 86400 + TimeOf(c)
  }

  /** The local clock shows `c` at an instant, counted in seconds, when it is `offset` seconds ahead. */
  predicate Shows(c: Civil, instant: int, offset: int) {
    OnCalendar(c) && SecondsOf(c) == instant + offset
  }

  // ------------------------------------------------------------------------------
  // The order of dates is the order of seconds
  // ------------------------------------------------------------------------------

  lemma {:induction false} YearsFollow(a: nat, b: nat)
    requires a < b
    ensures YearStart(a) + DaysInYear(a) <= YearStart(b)
  {
    if a + 1 < b {
      YearsFollow(a, b - 1);
    }
  }

  /** How many of the years before one are multiples of four, of a hundred and of four hundred. */
  function Fourths(year: nat): nat { (year + 3) / 4 }
  function Hundredths(year: nat): nat { (year + 99) / 100 }
  function FourHundredths(year: nat): nat { (year + 399) / 400 }

  lemma FourthsFollow(year: nat)
    ensures Fourths(year + 1) == Fourths(year) + if year % 4 == 0 then 1 else 0
  {
  }

  lemma HundredthsFollow(year: nat)
    ensures Hundredths(year + 1) == Hundredths(year) + if year % 100 == 0 then 1 else 0
  {
  }

  lemma FourHundredthsFollow(year: nat)
    ensures FourHundredths(year + 1) == FourHundredths(year) + if year % 400 == 0 then 1 else 0
  {
  }

  lemma OfHundred(year: nat, q: nat)
    requires year == 100 * q
    ensures year % 100 == 0
  {
  }

  lemma OfFour(year: nat, q: nat)
    requires year == 4 * q
    ensures year % 4 == 0
  {
  }

  lemma FourHundredthsAreHundredths(year: nat)
    requires year % 400 == 0
    ensures year % 100 == 0
  {
    OfHundred(year, 4 * (year / 400));
  }

  lemma HundredthsAreFourths(year: nat)
    requires year % 100 == 0
    ensures year % 4 == 0
  {
    OfFour(year, 25 * (year / 100));
  }

  /** The days before a year: 365 for each, and one more for each fourth, but for the hundredths that are no
      four-hundredths. */
  lemma {:induction false} YearStartIs(year: nat)
    ensures YearStart(year) == 365 * year + Fourths(year) - Hundredths(year) + FourHundredths(year)
  {
    if year > 0 {
      YearStartIs(year - 1);
      OneYearMore(year - 1);
    }
  }

  lemma OneYearMore(year: nat)
    ensures Fourths(year + 1) - Hundredths(year + 1) + FourHundredths(year + 1)
         == Fourths(year) - Hundredths(year) + FourHundredths(year) + if Leap(year) then 1 else 0
  {
    FourthsFollow(year);
    HundredthsFollow(year);
    FourHundredthsFollow(year);
    if year % 100 == 0 {
      HundredthsAreFourths(year);
    }
    if year % 400 == 0 {
      FourHundredthsAreHundredths(year);
    }
  }

  lemma {:induction false} MonthsFollow(year: nat, a: nat, b: nat)
    requires 1 <= a < b
    ensures MonthStart(year, a) + DaysInMonth(year, a) <= MonthStart(year, b)
  {
    if a + 1 < b {
      MonthsFollow(year, a, b - 1);
    }
  }

  lemma YearIsItsMonths(year: nat)
    ensures MonthStart(year, 13) == DaysInYear(year)
  {
    assert MonthStart(year, 2) == 31;
    assert MonthStart(year, 4) == MonthStart(year, 2) + DaysInMonth(year, 2) + 31;
    assert MonthStart(year, 6) == MonthStart(year, 4) + 61;
    assert MonthStart(year, 8) == MonthStart(year, 6) + 61;
    assert MonthStart(year, 10) == MonthStart(year, 8) + 61;
    assert MonthStart(year, 12) == MonthStart(year, 10) + 61;
  }

  lemma DateInYear(c: Civil)
    requires OnCalendar(c)
    ensures YearStart(c.year) <= DayOf(c) < YearStart(c.year) + DaysInYear(c.year)
  {
    MonthsFollow(c.year, c.month, 13);
    YearIsItsMonths(c.year);
  }

  predicate SameDate(a: Civil, b: Civil) {
    a.year == b.year && a.month == b.month && a.day == b.day
  }

  predicate EarlierDate(a: Civil, b: Civil) {
    a.year < b.year || (a.year == b.year && (a.month < b.month || (a.month == b.month && a.day < b.day)))
  }

  lemma LaterDateLaterDay(a: Civil, b: Civil)
    requires OnCalendar(a) && OnCalendar(b) && EarlierDate(a, b)
    ensures DayOf(a) < DayOf(b)
  {
    if a.year < b.year {
      DateInYear(a);
      DateInYear(b);
      YearsFollow(a.year, b.year);
    } else if a.month < b.month {
      MonthsFollow(a.year, a.month, b.month);
    }
  }

  lemma WithinADay(c: Civil)
    requires Valid(c)
    ensures TimeOf(c) < 86400
  {
  }

  lemma DaysBeforeTimes(day: int, time: nat, other: int, otherTime: nat)
    requires day < other && time < 86400
    ensures day * 86400 + time < other * 86400 + otherTime
  {
  }

  lemma LaterIsMoreSeconds(a: Civil, b: Civil)
    requires OnCalendar(a) && OnCalendar(b) && Earlier(a, b)
    ensures SecondsOf(a) < SecondsOf(b)
  {
    if EarlierDate(a, b) {
      LaterDateLaterDay(a, b);
      WithinADay(a);
      DaysBeforeTimes(DayOf(a), TimeOf(a), DayOf(b), TimeOf(b));
    } else {
      assert SameDate(a, b) && TimeOf(a) < TimeOf(b);
    }
  }

  /** One date and time is earlier than another exactly when the civil clock has counted fewer seconds. */
  lemma EarlierIsFewerSeconds(a: Civil, b: Civil)
    requires OnCalendar(a) && OnCalendar(b)
    ensures Earlier(a, b) <==> SecondsOf(a) < SecondsOf(b)
    ensures a == b <==> SecondsOf(a) == SecondsOf(b)
  {
    OneIsEarlier(a, b);
    if Earlier(a, b) {
      LaterIsMoreSeconds(a, b);
    } else if Earlier(b, a) {
      LaterIsMoreSeconds(b, a);
    }
  }

  lemma OneIsEarlier(a: Civil, b: Civil)
    ensures a == b || Earlier(a, b) || Earlier(b, a)
  {
  }

  // ------------------------------------------------------------------------------
  // Names and instants
  // ------------------------------------------------------------------------------

  /** A name sorts before another exactly when its instant is earlier by more than the local clock was
      set back in between, and they are one name exactly when it is earlier by just that. */
  lemma NamesOfInstants(a: Civil, s: int, x: int, b: Civil, t: int, y: int)
    requires Shows(a, s, x) && Shows(b, t, y)
    ensures Before(FileName(a), FileName(b)) <==> s + x < t + y
    ensures FileName(a) == FileName(b) <==> s + x == t + y
  {
    NamesInOrder(a, b);
    NamesAreDistinct(a, b);
    EarlierIsFewerSeconds(a, b);
  }

  /** So names are in the order of their instants as long as the clock stays where it is, or is only ever
      set forward. */
  lemma InOrderWithoutSettingBack(a: Civil, s: int, x: int, b: Civil, t: int, y: int)
    requires Shows(a, s, x) && Shows(b, t, y) && s < t && x <= y
    ensures Before(FileName(a), FileName(b))
  {
    NamesOfInstants(a, s, x, b, t, y);
  }

  /** A recording at half past one, and one forty minutes later, the clock having been set back an hour in
      between: the later one is named ten past one and sorts first. */
  lemma SetBackSortsFirst(first: Civil, second: Civil, instant: int)
    requires Shows(first, instant, 3600) && first.hour == 1 && first.minute == 30
    requires second == first.(minute := 10)
    ensures Shows(second, instant + 2400, 0) && Before(FileName(second), FileName(first))
  {
    assert DayOf(second) == DayOf(first);
    NamesOfInstants(second, instant + 2400, 0, first, instant, 3600);
  }
}
