/** The calendar and the clock the time period search is built on: the proleptic Gregorian calendar that
    mktime and localtime_r work with, local time zones with daylight saving, and the two routines that turn
    "the third Thursday" or "the last day" of a month into a day (src/timeperiod.cc). */

module Calendar {
  import opened Options

  predicate Leap(year: int) {
    year % 4 == 0 && (year % 100 != 0 || year % 400 == 0)
  }

  type Month = m: int | 0 <= m <= 11

  function DaysInMonth(year: int, month: Month): (n: int)
    ensures 28 <= n <= 31
  {
    if month == 1 then if Leap(year) then 29 else 28
    else if month in {3, 5, 8, 10} then 30 else 31
  }

  function DaysInYear(year: int): int {
    if Leap(year) then 366 else 365
  }

  /** The number of the first day of a year; day 0 is January 1 of year 0. */
  function YearStart(year: int): int
    decreases if year < 0 then -year else year
  {
    if year == 0 then 0
    else if year > 0 then YearStart(year - 1) + DaysInYear(year - 1)
    else YearStart(year + 1) - DaysInYear(year)
  }

  lemma YearLength(year: int)
    ensures YearStart(year + 1) == YearStart(year) + DaysInYear(year)
  {
  }

  function MonthStart(year: int, month: Month): int
    decreases month
  {
    if month == 0 then YearStart(year) else MonthStart(year, month - 1) + DaysInMonth(year, month - 1)
  }

  /** The day mktime computes for a month day that may lie outside its month. */
  function MkDay(year: int, month: Month, mday: int): int {
    MonthStart(year, month) + mday - 1
  }

  lemma MonthsFillYear(year: int)
    ensures MonthStart(year, 11) + 31 == YearStart(year + 1)
  {
    YearLength(year);
    assert MonthStart(year, 2) == YearStart(year) + 31 + DaysInMonth(year, 1);
    assert MonthStart(year, 5) == MonthStart(year, 2) + 92;
    assert MonthStart(year, 8) == MonthStart(year, 5) + 92;
    assert MonthStart(year, 11) == MonthStart(year, 8) + 91;
  }

  lemma {:induction false} MonthStartsIncrease(year: int, m: Month, n: Month)
    requires m <= n
    ensures MonthStart(year, m) + 28 * (n - m) <= MonthStart(year, n)
    decreases n - m
  {
    if m < n {
      MonthStartsIncrease(year, m, n - 1);
    }
  }

  lemma {:induction false} YearStartsIncrease(y: int, z: int)
    requires y <= z
    ensures YearStart(y) + 365 * (z - y) <= YearStart(z)
    decreases z - y
  {
    if y < z {
      YearStartsIncrease(y, z - 1);
      YearLength(z - 1);
    }
  }

  lemma YearStartBelow(year: int)
    ensures year < 0 ==> YearStart(year) <= year
    decreases -year
  {
    if year < -1 {
      YearStartBelow(year + 1);
    }
  }

  /** The broken-down date of a day, as localtime_r fills it in. */
  datatype Civil = Civil(year: int, month: Month, mday: int)

  function YearFrom(year: int, day: int): (y: int)
    requires YearStart(year) <= day
    ensures YearStart(y) <= day < YearStart(y + 1)
    decreases day - YearStart(year)
  {
    YearLength(year);
    if day < YearStart(year + 1) then year else YearFrom(year + 1, day)
  }

  function MonthFrom(year: int, month: Month, day: int): (m: Month)
    requires MonthStart(year, month) <= day < YearStart(year + 1)
    ensures MonthStart(year, m) <= day < MonthStart(year, m) + DaysInMonth(year, m)
    decreases 11 - month
  {
    MonthsFillYear(year);
    if month == 11 || day < MonthStart(year, month + 1) then month else MonthFrom(year, month + 1, day)
  }

  function CivilOf(day: int): (c: Civil)
    ensures 1 <= c.mday <= DaysInMonth(c.year, c.month)
    ensures MkDay(c.year, c.month, c.mday) == day
  {
    YearStartBelow(day);
    var year := YearFrom(if day >= 0 then 0 else day, day);
    var month := MonthFrom(year, 0, day);
    Civil(year, month, day - MonthStart(year, month) + 1)
  }

  /** No two dates share a day. */
  lemma DatesDiffer(y1: int, m1: Month, d1: int, y2: int, m2: Month, d2: int)
    requires 1 <= d1 <= DaysInMonth(y1, m1) && 1 <= d2 <= DaysInMonth(y2, m2)
    requires MkDay(y1, m1, d1) == MkDay(y2, m2, d2)
    ensures y1 == y2 && m1 == m2 && d1 == d2
  {
    if y1 < y2 || (y1 == y2 && m1 < m2) {
      EarlierMonth(y1, m1, y2, m2);
    } else if y2 < y1 || m2 < m1 {
      EarlierMonth(y2, m2, y1, m1);
    }
  }

  lemma EarlierMonth(y1: int, m1: Month, y2: int, m2: Month)
    requires y1 < y2 || (y1 == y2 && m1 < m2)
    ensures MonthStart(y1, m1) + DaysInMonth(y1, m1) <= MonthStart(y2, m2)
  {
    hide YearStart, DaysInMonth;
    if y1 < y2 {
      hide MonthStart;
      MonthInYear(y1, m1);
      MonthInYear(y2, m2);
      YearStartsIncrease(y1 + 1, y2);
    } else {
      MonthStartsIncrease(y1, m1 + 1, m2);
    }
  }

  /** Breaking down the day of a date gives the date back. */
  lemma CivilRoundTrip(year: int, month: Month, mday: int)
    requires 1 <= mday <= DaysInMonth(year, month)
    ensures CivilOf(MkDay(year, month, mday)) == Civil(year, month, mday)
  {
    var c := CivilOf(MkDay(year, month, mday));
    DatesDiffer(year, month, mday, c.year, c.month, c.mday);
  }

  lemma MonthInYear(year: int, month: Month)
    ensures YearStart(year) <= MonthStart(year, month)
    ensures MonthStart(year, month) + DaysInMonth(year, month) <= YearStart(year + 1)
  {
    MonthsFillYear(year);
    MonthStartsIncrease(year, 0, month);
    if month < 11 {
      MonthStartsIncrease(year, month + 1, 11);
    }
  }

  ghost predicate InMonth(day: int, year: int, month: Month) {
    MonthStart(year, month) <= day < MonthStart(year, month) + DaysInMonth(year, month)
  }

  lemma InMonthMeans(day: int, year: int, month: Month)
    ensures InMonth(day, year, month) <==> CivilOf(day).year == year && CivilOf(day).month == month
  {
    if InMonth(day, year, month) {
      CivilRoundTrip(year, month, day - MonthStart(year, month) + 1);
    }
  }

  /** The month after; mktime is always given a month in range. */
  function NextMonth(year: int, month: Month): (int, Month) {
    if month == 11 then (year + 1, 0) else (year, month + 1)
  }

  lemma NextMonthFollows(year: int, month: Month)
    ensures MonthStart(NextMonth(year, month).0, NextMonth(year, month).1)
         == MonthStart(year, month) + DaysInMonth(year, month)
  {
    hide YearStart;
    MonthsFillYear(year);
    if month < 11 {
      hide DaysInMonth;
      assert MonthStart(year, month + 1) == MonthStart(year, month) + DaysInMonth(year, month);
    }
  }

  /** Days past the month that are still too few to come round to the same month of the next year. */
  lemma PastMonth(year: int, month: Month, mday: int)
    requires 1 <= mday <= 365
    ensures CivilOf(MkDay(year, month, mday)).month == month <==> mday <= DaysInMonth(year, month)
  {
    var day := MkDay(year, month, mday);
    if mday <= DaysInMonth(year, month) {
      CivilRoundTrip(year, month, mday);
    } else if CivilOf(day).month == month {
      InMonthMeans(day, year, month);
      var y := CivilOf(day).year;
      InMonthMeans(day, y, month);
      MonthInYear(year, month);
      MonthInYear(y, month);
      SameMonthFarApart(year, y, month);
    }
  }

  /** Days further past the month lie in the same month exactly if they lie in that month of a later year. */
  lemma FarPastMonth(year: int, month: Month, mday: int)
    requires mday > 365
    ensures CivilOf(MkDay(year, month, mday)).month == month <==>
            exists later :: later > year && InMonth(MkDay(year, month, mday), later, month)
  {
    var day := MkDay(year, month, mday);
    var y := CivilOf(day).year;
    InMonthMeans(day, y, month);
    if CivilOf(day).month == month && y <= year {
      if y < year {
        SameMonthLater(y, year, month);
      }
      assert false;
    }
    forall later | later > year && InMonth(day, later, month) ensures CivilOf(day).month == month {
      InMonthMeans(day, later, month);
    }
  }

  /** The same month of two different years starts at least 365 days apart. */
  lemma SameMonthFarApart(y: int, z: int, month: Month)
    requires y != z
    ensures MonthStart(y, month) - MonthStart(z, month) >= 365 || MonthStart(z, month) - MonthStart(y, month) >= 365
  {
    if y < z { SameMonthLater(y, z, month); } else { SameMonthLater(z, y, month); }
  }

  lemma SameMonthLater(y: int, z: int, month: Month)
    requires y < z
    ensures MonthStart(y, month) + 365 <= MonthStart(z, month)
  {
    YearStartsIncrease(y + 1, z);
    YearLength(y);
    MonthOffset(y, month);
    MonthOffset(z, month);
  }

  /** Where a month starts inside its year. */
  lemma MonthOffset(year: int, month: Month)
    ensures MonthStart(year, month) - YearStart(year) == MonthStart(1, month) - YearStart(1)
              + if month > 1 && Leap(year) then 1 else 0
    decreases month
  {
    if month > 0 { MonthOffset(year, month - 1); }
  }

  /** tm_wday: 0 is Sunday. */
  function WeekDay(day: int): (w: int)
    ensures 0 <= w < 7
  {
    (day + 6) % 7
  }

  /** The leap days before a year, counted from year 0 on. */
  function LeapDays(year: int): int {
    (year + 3) / 4 - (year + 99) / 100 + (year + 399) / 400
  }

  /** The day a year starts on, in closed form. */
  lemma {:induction false} YearStartIs(year: int)
    ensures YearStart(year) == 365 * year + LeapDays(year)
    decreases if year < 0 then -year else year
  {
    hide LeapDays;
    LeapDaysOfYearZero();
    if year > 0 {
      YearStartIs(year - 1);
      LeapDaysBefore(year - 1);
    } else if year < 0 {
      YearStartIs(year + 1);
      LeapDaysBefore(year);
    }
  }

  lemma LeapDaysOfYearZero()
    ensures LeapDays(0) == 0
  {
  }

  lemma LeapDaysBefore(year: int)
    ensures LeapDays(year + 1) == LeapDays(year) + if Leap(year) then 1 else 0
  {
    NextFour(year);
    NextHundred(year);
    NextFourHundred(year);
    CommonMultiples(year);
  }

  lemma NextFour(year: int)
    ensures (year + 4) / 4 == (year + 3) / 4 + if year % 4 == 0 then 1 else 0
  {
  }

  lemma NextHundred(year: int)
    ensures (year + 100) / 100 == (year + 99) / 100 + if year % 100 == 0 then 1 else 0
  {
  }

  lemma NextFourHundred(year: int)
    ensures (year + 400) / 400 == (year + 399) / 400 + if year % 400 == 0 then 1 else 0
  {
  }

  lemma CommonMultiples(year: int)
    ensures year % 400 == 0 ==> year % 100 == 0
    ensures year % 100 == 0 ==> year % 4 == 0
  {
  }

  /** The weekdays of the calendar: 1 January 1970 was a Thursday, and they follow each other. */
  lemma WeekDaysAreThoseOfTheCalendar(day: int)
    ensures WeekDay(MkDay(1970, 0, 1)) == 4
    ensures WeekDay(day + 1) == if WeekDay(day) == 6 then 0 else WeekDay(day) + 1
  {
    hide YearStart;
    YearStartIs(1970);
  }

  /** Which months have a 31st and a 30th, and that 29 February exists in the years divisible by four, except in those
      divisible by 100 and not by 400. */
  lemma MonthsAreThoseOfTheCalendar(year: int, month: Month)
    ensures CivilOf(MkDay(year, month, 31)).month == month <==> month in {0, 2, 4, 6, 7, 9, 11}
    ensures CivilOf(MkDay(year, month, 30)).month == month <==> month != 1
    ensures CivilOf(MkDay(year, 1, 29)).month == 1 <==> year % 4 == 0 && (year % 100 != 0 || year % 400 == 0)
  {
    hide YearStart, CivilOf;
    PastMonth(year, month, 31);
    PastMonth(year, month, 30);
    PastMonth(year, 1, 29);
  }

  // ----- "day 3", "day -1": a day counted from either end of a month -----

  /** The day a month day denotes. Negative month days count from the end, and 0 runs over into the next month. */
  function DayOfMonth(year: int, month: Month, monthday: int): (day: Option<int>)
    ensures monthday <= 0 ==> day.Some?
  {
    if monthday > 0 then
      var day := MkDay(year, month, monthday);
      if CivilOf(day).month == month then Some(day) else None
    else
      var length := DaysInMonth(year, month);
      Some(MkDay(year, month, if -monthday >= length then 1 else length + monthday + 1))
  }

  /** calculate_time_from_day_of_month: a negative month day is looked for from day 32 of the month backwards. */
  method CalculateTimeFromDayOfMonth(year: int, month: Month, monthday: int) returns (midnight: Option<int>)
    ensures midnight == DayOfMonth(year, month, monthday)
  {
    if monthday > 0 {
      var day := MkDay(year, month, monthday);
      midnight := if CivilOf(day).month != month then None else Some(day);
    } else {
      var day := 31;
      var t := CivilOf(MkDay(year, month, day));
      PastMonth(year, month, day);
      while t.month != month
        invariant DaysInMonth(year, month) <= day <= 31
        invariant t == CivilOf(MkDay(year, month, day))
        invariant t.month == month <==> day <= DaysInMonth(year, month)
        decreases day
      {
        day := day - 1;
        t := CivilOf(MkDay(year, month, day));
        PastMonth(year, month, day);
      }
      CivilRoundTrip(year, month, day);
      var mday := if -monthday >= t.mday then 1 else t.mday + (monthday + 1);
      midnight := Some(MkDay(year, month, mday));
    }
  }

  /** Day k exists exactly when the month is long enough, except that a k beyond a year may come round to the same
      month; day -k is the k-th from the end, or the first. */
  lemma DayOfMonthMeans(year: int, month: Month, k: int)
    requires 1 <= k
    ensures k <= 365 ==>
      DayOfMonth(year, month, k) == if k <= DaysInMonth(year, month) then Some(MkDay(year, month, k)) else None
    ensures k > 365 ==>
      (DayOfMonth(year, month, k).Some? <==>
        exists later :: later > year && InMonth(MkDay(year, month, k), later, month))
    ensures var d := DayOfMonth(year, month, -k).value;
      && InMonth(d, year, month)
      && CivilOf(d).mday == (if k <= DaysInMonth(year, month) then DaysInMonth(year, month) + 1 - k else 1)
  {
    if k <= 365 {
      PastMonth(year, month, k);
    } else {
      FarPastMonth(year, month, k);
    }
    var length := DaysInMonth(year, month);
    CivilRoundTrip(year, month, if k <= length then length + 1 - k else 1);
  }

  /** The test for a day past its month looks at the month alone: day 380 is taken for a day of the next year. */
  lemma OverlongDayIsNextYear(year: int, month: Month)
    ensures DayOfMonth(year, month, 380).Some?
    ensures var date := CivilOf(DayOfMonth(year, month, 380).value);
      date.year == year + 1 && date.month == month && 14 <= date.mday <= 15
  {
    YearLength(year);
    MonthOffset(year, month);
    MonthOffset(year + 1, month);
    var mday := 380 - (MonthStart(year + 1, month) - MonthStart(year, month));
    assert 14 <= mday <= 15;
    CivilRoundTrip(year + 1, month, mday);
    assert MkDay(year + 1, month, mday) == MkDay(year, month, 380);
  }

  // ----- "thursday 2", "monday -1": a weekday counted from either end of a month -----

  /** The days of a month, as the number of its first day and its length. */
  datatype Span = Span(first: int, length: int) {
    predicate Contains(day: int) { first <= day < first + length }
  }

  type MonthSpan = s: Span | 28 <= s.length <= 31 witness Span(0, 28)

  function SpanOf(year: int, month: Month): MonthSpan {
    Span(MonthStart(year, month), DaysInMonth(year, month))
  }

  /** day is the n-th such weekday of the month. */
  ghost predicate IsNth(day: int, m: MonthSpan, weekday: int, n: int) {
    WeekDay(day) == weekday && m.Contains(day) && m.Contains(day - 7 * (n - 1)) && !m.Contains(day - 7 * n)
  }

  /** day is the n-th such weekday counted from the end of the month. */
  ghost predicate IsNthFromLast(day: int, m: MonthSpan, weekday: int, n: int) {
    WeekDay(day) == weekday && m.Contains(day) && m.Contains(day + 7 * (n - 1)) && !m.Contains(day + 7 * n)
  }

  /** The month day of the first such weekday. */
  function FirstWeekDay(m: MonthSpan, weekday: int): (mday: int)
    requires 0 <= weekday < 7
    ensures 1 <= mday <= 7 && WeekDay(m.first + mday - 1) == weekday
  {
    var days := weekday - WeekDay(m.first);
    if days < 0 then days + 8 else days + 1
  }

  /** The month day of the last such weekday. */
  function LastWeekDay(m: MonthSpan, weekday: int): (mday: int)
    requires 0 <= weekday < 7
    ensures 22 <= mday <= m.length < mday + 7
    ensures WeekDay(m.first + mday - 1) == weekday
  {
    var mday := FirstWeekDay(m, weekday);
    WeekDayShift(m.first + mday - 1, 3);
    WeekDayShift(m.first + mday - 1, 4);
    if mday + 28 <= m.length then mday + 28 else mday + 21
  }

  /** The month day the source computes; it may lie outside the month. */
  function WeekdayMonthDay(m: MonthSpan, weekday: int, offset: int): (mday: int)
    requires 0 <= weekday < 7
    ensures WeekDay(m.first + mday - 1) == weekday
  {
    if offset > 0 then
      var weeks := if offset > 5 then 5 else offset;
      WeekDayShift(m.first + FirstWeekDay(m, weekday) - 1, weeks - 1);
      FirstWeekDay(m, weekday) + 7 * (weeks - 1)
    else
      var last := LastWeekDay(m, weekday);
      var back := 7 * (offset + 1);
      WeekDayShift(m.first + last - 1, offset + 1);
      WeekDayShift(m.first + last - 1, -(last / 7));
      if -back >= last then last % 7 else last + back
  }

  function WeekdayOfMonth(year: int, month: Month, weekday: int, offset: int): (day: Option<int>)
    requires 0 <= weekday < 7
    ensures offset <= 0 ==> day.Some?
  {
    var mday := WeekdayMonthDay(SpanOf(year, month), weekday, offset);
    if offset > 0 && mday > DaysInMonth(year, month) then None else Some(MkDay(year, month, mday))
  }

  /** calculate_time_from_weekday_of_month. */
  method CalculateTimeFromWeekdayOfMonth(year: int, month: Month, weekday: int, weekdayOffset: int)
    returns (midnight: Option<int>)
    requires 0 <= weekday < 7
    ensures midnight == WeekdayOfMonth(year, month, weekday, weekdayOffset)
  {
    hide WeekDay, LastWeekDay, DaysInMonth, CivilOf;
    ghost var m := SpanOf(year, month);
    var days := weekday - WeekDay(MkDay(year, month, 1));
    if days < 0 {
      days := days + 7;
    }
    assert days + 1 == FirstWeekDay(m, weekday);
    if weekdayOffset > 0 {
      var weeks := if weekdayOffset > 5 then 5 else weekdayOffset;
      days := days + (weeks - 1) * 7;
      var day := MkDay(year, month, days + 1);
      PastMonth(year, month, days + 1);
      midnight := if CivilOf(day).month != month then None else Some(day);
    } else {
      var mday := FindLastWeekDay(year, month, weekday, days);
      days := (weekdayOffset + 1) * 7;
      mday := if -days >= mday then mday % 7 else mday + days;
      midnight := Some(MkDay(year, month, mday));
    }
  }

  /** The loop that backs up a week at a time from a day past the month. */
  method FindLastWeekDay(year: int, month: Month, weekday: int, firstDays: int) returns (mday: int)
    requires 0 <= weekday < 7 && firstDays + 1 == FirstWeekDay(SpanOf(year, month), weekday)
    ensures mday == LastWeekDay(SpanOf(year, month), weekday)
  {
    var days := firstDays + 5 * 7;
    days := days - 7;
    var t := CivilOf(MkDay(year, month, days + 1));
    PastMonth(year, month, days + 1);
    while t.month != month
      invariant t == CivilOf(MkDay(year, month, days + 1))
      invariant days == firstDays + 28 || (days == firstDays + 21 && firstDays + 28 >= DaysInMonth(year, month))
      invariant t.month == month <==> days + 1 <= DaysInMonth(year, month)
      decreases days
    {
      days := days - 7;
      t := CivilOf(MkDay(year, month, days + 1));
      PastMonth(year, month, days + 1);
    }
    CivilRoundTrip(year, month, days + 1);
    mday := t.mday;
  }

  lemma WeekDayShift(day: int, weeks: int)
    ensures WeekDay(day + 7 * weeks) == WeekDay(day)
  {
  }

  /** Two days of the same weekday are whole weeks apart. */
  lemma SameWeekDay(d: int, e: int) returns (weeks: int)
    requires WeekDay(d) == WeekDay(e)
    ensures e == d + 7 * weeks
  {
    weeks := (e + 6) / 7 - (d + 6) / 7;
  }

  /** Offsets 1 to 5 find the n-th such weekday, or fail exactly when the month has none; larger ones act as 5. */
  lemma PositiveWeekdayOffset(year: int, month: Month, weekday: int, offset: int, day: int)
    requires 0 <= weekday < 7 && offset > 0
    ensures WeekdayOfMonth(year, month, weekday, offset) == Some(day) <==>
            IsNth(day, SpanOf(year, month), weekday, if offset > 5 then 5 else offset)
  {
    hide WeekDay, MonthStart, DaysInMonth;
    var m := SpanOf(year, month);
    if WeekDay(day) == weekday {
      var weeks := SameWeekDay(m.first + FirstWeekDay(m, weekday) - 1, day);
    }
  }

  /** Offsets -1 to -4 find the n-th such weekday from the end; every month has it. */
  lemma NegativeWeekdayOffset(year: int, month: Month, weekday: int, n: int, day: int)
    requires 0 <= weekday < 7 && 1 <= n <= 4
    ensures WeekdayOfMonth(year, month, weekday, -n) == Some(day) <==>
            IsNthFromLast(day, SpanOf(year, month), weekday, n)
  {
    hide WeekDay, LastWeekDay, DaysInMonth;
    var m := SpanOf(year, month);
    if WeekDay(day) == weekday {
      var weeks := SameWeekDay(m.first + LastWeekDay(m, weekday) - 1, day);
    }
  }

  /** A non-positive offset always yields the right weekday, but it leaves the month in exactly two cases:
      offset 0 (a week too late), and offsets of -5 and below when the last such weekday is the 28th. */
  lemma WhenWeekdayLeavesMonth(year: int, month: Month, weekday: int, offset: int)
    requires 0 <= weekday < 7 && offset <= 0
    ensures var day := WeekdayOfMonth(year, month, weekday, offset).value;
      && WeekDay(day) == weekday
      && (InMonth(day, year, month) <==>
          offset < 0 && !(offset <= -5 && LastWeekDay(SpanOf(year, month), weekday) == 28))
  {
    hide WeekDay, LastWeekDay, DaysInMonth;
    BackedUp(LastWeekDay(SpanOf(year, month), weekday), offset);
  }

  /** Every month shows it: offset -5 leaves it for the weekday of its 28th. */
  lemma OffsetMinusFiveLeavesEveryMonth(year: int, month: Month)
    ensures var m := SpanOf(year, month);
      var weekday := WeekDay(m.first + 27);
      LastWeekDay(m, weekday) == 28 && !InMonth(WeekdayOfMonth(year, month, weekday, -5).value, year, month)
  {
    hide LastWeekDay, MonthStart, DaysInMonth, WeekdayOfMonth;
    var m := SpanOf(year, month);
    var weekday := WeekDay(m.first + 27);
    var weeks := SameWeekDay(m.first + LastWeekDay(m, weekday) - 1, m.first + 27);
    WhenWeekdayLeavesMonth(year, month, weekday, -5);
  }

  /** Going back from the last such weekday by weeks, or to its remainder once that would leave the month. */
  lemma BackedUp(last: int, offset: int)
    requires 22 <= last <= 31 && offset <= 0
    ensures var back := 7 * (offset + 1);
      var mday := if -back >= last then last % 7 else last + back;
      if offset == 0 then mday == last + 7 else mday <= last && (mday >= 1 <==> !(offset <= -5 && last == 28))
  {
    if offset <= -6 {
      assert -(7 * (offset + 1)) >= 35;
    }
  }
}
