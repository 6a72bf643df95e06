/** What the date ranges of src/timeperiod.cc mean in calendar terms: on which days each kind of exception
    applies, including the cases where the code departs from the documented meaning. */
module DateRangeMeanings {
  import opened Options
  import opened Calendar
  import opened TimeZones
  import opened DateRanges

  /** A span without skip interval covers the days from its start up to its end. */
  lemma CoversSpan(z: Zone, r: DateRange, kind: nat, day: int, start: int, end: Option<int>)
    requires z.Valid() && r.skipInterval <= 1
    requires KindSpan(z, r, kind, day) == TimeSpan(true, z.Midnight(start), TimeOf(z, end))
    ensures Covers(z, r, kind, day) <==> start <= day && (end.None? || day < end.value)
  {
    hide KindSpan, Zone.Valid;
    NoTimeMeansNone(z, Some(start));
    NoTimeMeansNone(z, end);
    z.MidnightsIncrease(start, day);
    z.MidnightsIncrease(day, start);
    if end.Some? { z.MidnightsIncrease(day, end.value); }
  }

  /** An empty or failed span covers nothing. */
  lemma CoversBetween(z: Zone, r: DateRange, kind: nat, day: int, start: Option<int>, end: Option<int>)
    requires z.Valid() && r.skipInterval <= 1
    requires KindSpan(z, r, kind, day) ==
      if start.None? || end.None? then NO_SPAN else SpanBetween(z, start, DayAfter(end))
    ensures Covers(z, r, kind, day) <==> start.Some? && end.Some? && start.value <= day <= end.value
  {
    hide KindSpan, Zone.Valid;
    if start.Some? && end.Some? {
      z.MidnightsIncrease(start.value, end.value + 1);
      if start.value <= end.value {
        CoversSpan(z, r, kind, day, start.value, DayAfter(end));
      }
    }
  }

  /** "2009-08-11 - 2009-08-20": the days from the first date to the last one; without an end date, for ever. */
  lemma CalendarDateCovers(z: Zone, r: DateRange, day: int)
    requires z.Valid() && r.skipInterval <= 1
    ensures Covers(z, r, CALENDAR_DATE, day) <==>
      MkDay(r.syear, r.smon, r.smday) <= day && (r.eyear == 0 || day <= MkDay(r.eyear, r.emon, r.emday))
  {
    hide MkDay;
    CoversSpan(z, r, CALENDAR_DATE, day, MkDay(r.syear, r.smon, r.smday),
               if r.eyear != 0 then Some(MkDay(r.eyear, r.emon, r.emday) + 1) else None);
  }

  /** "day 3 - 12": these days of every month that has all of them; a month without the last day is left out
      altogether. */
  lemma MonthDayCovers(z: Zone, r: DateRange, day: int)
    requires z.Valid() && r.skipInterval <= 1 && 1 <= r.smday <= r.emday <= 365
    ensures var c := CivilOf(day);
      Covers(z, r, MONTH_DAY, day) <==> r.smday <= c.mday <= r.emday && r.emday <= DaysInMonth(c.year, c.month)
  {
    hide CivilOf, DayOfMonth, Zone.Valid;
    var c := CivilOf(day);
    DayOfMonthMeans(c.year, c.month, r.smday);
    DayOfMonthMeans(c.year, c.month, r.emday);
    CoversBetween(z, r, MONTH_DAY, day, DayOfMonth(c.year, c.month, r.smday), DayOfMonth(c.year, c.month, r.emday));
  }

  /** "day 3 - day -k": from the third to the k-th day before the end of every month. */
  lemma MonthDayToEndCovers(z: Zone, r: DateRange, day: int, k: int)
    requires z.Valid() && r.skipInterval <= 1 && 1 <= r.smday <= 365 && 1 <= k && r.emday == -k
    ensures var c := CivilOf(day);
      var last := if k <= DaysInMonth(c.year, c.month) then DaysInMonth(c.year, c.month) + 1 - k else 1;
      Covers(z, r, MONTH_DAY, day) <==> r.smday <= c.mday <= last
  {
    hide Zone.Valid, YearStart;
    var c := CivilOf(day);
    DayOfMonthMeans(c.year, c.month, r.smday);
    DayOfMonthMeans(c.year, c.month, k);
    CoversBetween(z, r, MONTH_DAY, day, DayOfMonth(c.year, c.month, r.smday), DayOfMonth(c.year, c.month, -k));
  }

  /** "day 20 - day 5": from the twentieth of one month to the fifth of the next. The whole range is dropped
      when the previous month lacks the start day or this month the end day, and its second half when the
      next month lacks the end day. */
  lemma MonthDayAcrossMonthsCovers(z: Zone, r: DateRange, day: int)
    requires z.Valid() && r.skipInterval <= 1 && 1 <= r.emday < r.smday <= 365
    ensures var c := CivilOf(day);
      var before, after := PreviousMonth(c.year, c.month), NextMonth(c.year, c.month);
      Covers(z, r, MONTH_DAY, day) <==>
        && r.smday <= DaysInMonth(before.0, before.1) && r.emday <= DaysInMonth(c.year, c.month)
        && (c.mday <= r.emday || (r.smday <= c.mday && r.emday <= DaysInMonth(after.0, after.1)))
  {
    hide CivilOf, Zone.Valid, MonthStart, DayOfMonth;
    var c := CivilOf(day);
    var before, after := PreviousMonth(c.year, c.month), NextMonth(c.year, c.month);
    NextMonthFollows(c.year, c.month);
    NextMonthFollows(before.0, before.1);
    DayOfMonthMeans(before.0, before.1, r.smday);
    DayOfMonthMeans(c.year, c.month, r.smday);
    DayOfMonthMeans(c.year, c.month, r.emday);
    DayOfMonthMeans(after.0, after.1, r.emday);
    var end := DayOfMonth(c.year, c.month, r.emday);
    if DayOfMonth(before.0, before.1, r.smday).Some? && end.Some? && end.value < day {
      CoversBetween(z, r, MONTH_DAY, day, DayOfMonth(c.year, c.month, r.smday), DayOfMonth(after.0, after.1, r.emday));
    } else {
      CoversBetween(z, r, MONTH_DAY, day, DayOfMonth(before.0, before.1, r.smday), end);
    }
  }

  /** "day -5 - day -1", both counted from the end: the code takes the range to begin in the month before, so it
      covers the days up to its last and those from its first on, which are all days if the first does not lie behind
      the last. */
  lemma MonthDayFromEndToEndCovers(z: Zone, r: DateRange, day: int, k: int, j: int)
    requires z.Valid() && r.skipInterval <= 1 && 1 <= k && 1 <= j && r.smday == -k && r.emday == -j
    ensures var c := CivilOf(day);
      var length := DaysInMonth(c.year, c.month);
      var (first, last) := (if k <= length then length + 1 - k else 1, if j <= length then length + 1 - j else 1);
      && (Covers(z, r, MONTH_DAY, day) <==> c.mday <= last || first <= c.mday)
      && (k >= j ==> Covers(z, r, MONTH_DAY, day))
  {
    hide CivilOf, Zone.Valid, MonthStart, Covers;
    var c := CivilOf(day);
    var before, after := PreviousMonth(c.year, c.month), NextMonth(c.year, c.month);
    NextMonthFollows(c.year, c.month);
    NextMonthFollows(before.0, before.1);
    var end := DayOfMonth(c.year, c.month, r.emday);
    if end.value < day {
      CoversBetween(z, r, MONTH_DAY, day, DayOfMonth(c.year, c.month, r.smday), DayOfMonth(after.0, after.1, r.emday));
    } else {
      CoversBetween(z, r, MONTH_DAY, day, DayOfMonth(before.0, before.1, r.smday), end);
    }
  }

  /** "day -5 - day 28": from the k-th day before the end to a day of the same month, if it does not lie before. */
  lemma MonthDayFromEndCovers(z: Zone, r: DateRange, day: int, k: int)
    requires z.Valid() && r.skipInterval <= 1 && 1 <= k && r.smday == -k && 1 <= r.emday <= 365
    ensures var c := CivilOf(day);
      var length := DaysInMonth(c.year, c.month);
      var first := if k <= length then length + 1 - k else 1;
      Covers(z, r, MONTH_DAY, day) <==> first <= c.mday <= r.emday <= length
  {
    hide Zone.Valid, YearStart;
    var c := CivilOf(day);
    DayOfMonthMeans(c.year, c.month, r.emday);
    DayOfMonthMeans(c.year, c.month, k);
    CoversBetween(z, r, MONTH_DAY, day, DayOfMonth(c.year, c.month, -k), DayOfMonth(c.year, c.month, r.emday));
  }

  /** Day 0 is the first day of the next month. A range that starts there covers nothing, and one that ends there runs
      to the end of the month: from its first day if that is counted from the end, and otherwise from before the
      month, if the previous month has that day. */
  lemma MonthDayZeroCovers(z: Zone, r: DateRange, day: int)
    requires z.Valid() && r.skipInterval <= 1 && r.smday <= 365 && r.emday <= 365 && (r.smday == 0 || r.emday == 0)
    ensures var c := CivilOf(day);
      var before := PreviousMonth(c.year, c.month);
      Covers(z, r, MONTH_DAY, day) <==>
        if r.smday == 0 then false
        else if r.smday > 0 then r.smday <= DaysInMonth(before.0, before.1)
        else -r.smday >= DaysInMonth(c.year, c.month) || c.mday >= DaysInMonth(c.year, c.month) + 1 + r.smday
  {
    hide CivilOf, Zone.Valid, MonthStart, Covers;
    var c := CivilOf(day);
    var before := PreviousMonth(c.year, c.month);
    NextMonthFollows(before.0, before.1);
    NextMonthFollows(c.year, c.month);
    if r.smday > 0 {
      DayOfMonthMeans(before.0, before.1, r.smday);
      CoversBetween(z, r, MONTH_DAY, day, DayOfMonth(before.0, before.1, r.smday),
                    DayOfMonth(c.year, c.month, r.emday));
    } else {
      if r.emday > 0 {
        DayOfMonthMeans(c.year, c.month, r.emday);
      }
      CoversBetween(z, r, MONTH_DAY, day, DayOfMonth(c.year, c.month, r.smday),
                    DayOfMonth(c.year, c.month, r.emday));
    }
  }

  /** The date exists every year. */
  ghost predicate EveryYear(month: Month, mday: int) {
    mday >= 1 && forall y :: mday <= DaysInMonth(y, month)
  }

  /** The end date does not lie before the start date in the year. */
  predicate InsideYear(r: DateRange) {
    r.smon < r.emon || (r.smon == r.emon && r.smday <= r.emday)
  }

  /** The range of that year has an end, which is not over. */
  predicate StillToCome(r: DateRange, year: int, day: int) {
    r.emday <= DaysInMonth(year, r.emon) && day <= MkDay(year, r.emon, r.emday)
  }

  /** The year that counts: the first of this and the next whose range has an end that is not over, or else the year
      after these. */
  function DecidingYear(r: DateRange, day: int): int {
    var year := CivilOf(day).year;
    if StillToCome(r, year, day) then year else if StillToCome(r, year + 1, day) then year + 1 else year + 2
  }

  /** "january 10 - march 5" inside one year. If the year that counts has the end date, the range covers the day if the
      start date of that year has come, or if that year lacks the start date: then the start is left open. */
  lemma MonthDateCoversExactly(z: Zone, r: DateRange, day: int)
    requires z.Valid() && z.Midnight(day) >= 0 && r.skipInterval <= 1
    requires InsideYear(r) && 1 <= r.smday <= 365 && 1 <= r.emday <= 365
    ensures var year := DecidingYear(r, day);
      Covers(z, r, MONTH_DATE, day) <==>
        && r.emday <= DaysInMonth(year, r.emon)
        && (r.smday > DaysInMonth(year, r.smon) || MkDay(year, r.smon, r.smday) <= day)
  {
    hide CivilOf, Zone.Valid, MonthStart, DayOfMonth, DaysInMonth, Covers, KindSpan, DecidingYear;
    var year := DecidingYear(r, day);
    DecidingSpan(z, r, day);
    DayOfMonthMeans(year, r.smon, r.smday);
    DayOfMonthMeans(year, r.emon, r.emday);
    DaysOfDecidingYear(r, day);
    if r.emday > DaysInMonth(year, r.emon) {
      NothingWithoutEnd(z, r, day, DayOfMonth(year, r.smon, r.smday));
    } else {
      var last := MkDay(year, r.emon, r.emday);
      z.MidnightsIncrease(day, last + 1);
      if r.smday <= DaysInMonth(year, r.smon) {
        DateInYear(year, r.smon, r.smday, r.emon, r.emday);
        z.MidnightsIncrease(MkDay(year, r.smon, r.smday), last + 1);
        CoversSpan(z, r, MONTH_DATE, day, MkDay(year, r.smon, r.smday), Some(last + 1));
      } else {
        OpenStartCovers(z, r, day, last + 1);
      }
    }
  }

  lemma DecidingSpan(z: Zone, r: DateRange, day: int)
    requires InsideYear(r) && 1 <= r.emday <= 365
    ensures var year := DecidingYear(r, day);
      KindSpan(z, r, MONTH_DATE, day) ==
        SpanBetween(z, DayOfMonth(year, r.smon, r.smday), DayAfter(DayOfMonth(year, r.emon, r.emday)))
  {
    hide CivilOf, MonthStart, DayOfMonth, DaysInMonth, SpanBetween;
    forall y ensures DayOfMonth(y, r.emon, r.emday) ==
      if r.emday <= DaysInMonth(y, r.emon) then Some(MkDay(y, r.emon, r.emday)) else None
    {
      DayOfMonthMeans(y, r.emon, r.emday);
    }
    var year := DecidingYear(r, day);
    assert MonthDateDays(r, CivilOf(day).year, 3, day) ==
           (DayOfMonth(year, r.smon, r.smday), DayAfter(DayOfMonth(year, r.emon, r.emday)));
  }

  /** The end of the deciding year is not over; if it has none, its start is still to come. */
  lemma DaysOfDecidingYear(r: DateRange, day: int)
    requires 1 <= r.smday && 1 <= r.emday
    ensures var year := DecidingYear(r, day);
      && (r.emday <= DaysInMonth(year, r.emon) ==> day <= MkDay(year, r.emon, r.emday))
      && (r.emday > DaysInMonth(year, r.emon) ==> day < MkDay(year, r.smon, r.smday))
  {
    hide CivilOf, MonthStart, DaysInMonth, YearStart;
    var c := CivilOf(day);
    MonthInYear(c.year, c.month);
    YearStartsIncrease(c.year + 1, c.year + 2);
    MonthInYear(c.year + 2, r.smon);
    MonthInYear(c.year + 2, r.emon);
  }

  lemma NothingWithoutEnd(z: Zone, r: DateRange, day: int, start: Option<int>)
    requires z.Valid() && z.Midnight(day) >= 0 && r.skipInterval <= 1
    requires KindSpan(z, r, MONTH_DATE, day) == SpanBetween(z, start, None) && (start.Some? ==> day < start.value)
    ensures !Covers(z, r, MONTH_DATE, day)
  {
    hide KindSpan, Zone.Valid;
    if start.Some? {
      z.MidnightsIncrease(day, start.value);
    }
  }

  lemma OpenStartCovers(z: Zone, r: DateRange, day: int, end: int)
    requires z.Midnight(day) >= 0 && r.skipInterval <= 1 && z.Midnight(day) < z.Midnight(end)
    requires KindSpan(z, r, MONTH_DATE, day) == SpanBetween(z, None, Some(end))
    ensures Covers(z, r, MONTH_DATE, day)
  {
    hide KindSpan;
  }

  /** When both dates exist every year, these are the days between them. */
  lemma MonthDateCovers(z: Zone, r: DateRange, day: int)
    requires z.Valid() && z.Midnight(day) >= 0 && r.skipInterval <= 1 && InsideYear(r)
    requires EveryYear(r.smon, r.smday) && EveryYear(r.emon, r.emday)
    ensures var year := CivilOf(day).year;
      Covers(z, r, MONTH_DATE, day) <==> MkDay(year, r.smon, r.smday) <= day <= MkDay(year, r.emon, r.emday)
  {
    hide CivilOf, Zone.Valid, MonthStart, Covers, DaysInMonth;
    var c := CivilOf(day);
    assert r.emday <= DaysInMonth(c.year, r.emon) && r.smday <= DaysInMonth(c.year, r.smon);
    assert r.emday <= DaysInMonth(c.year + 1, r.emon) && r.smday <= DaysInMonth(c.year + 1, r.smon);
    MonthDateCoversExactly(z, r, day);
    MonthInYear(c.year, c.month);
    MonthInYear(c.year + 1, r.smon);
    MonthInYear(c.year + 1, r.emon);
  }

  /** "november 20 - february 5", round the end of the year: when both dates exist every year, these are the days of
      the year up to the end date and from the start date on. */
  lemma MonthDateAcrossYearsCovers(z: Zone, r: DateRange, day: int)
    requires z.Valid() && z.Midnight(day) >= 0 && r.skipInterval <= 1 && !InsideYear(r)
    requires EveryYear(r.smon, r.smday) && EveryYear(r.emon, r.emday)
    ensures var year := CivilOf(day).year;
      Covers(z, r, MONTH_DATE, day) <==> day <= MkDay(year, r.emon, r.emday) || MkDay(year, r.smon, r.smday) <= day
  {
    hide CivilOf, Zone.Valid, MonthStart, DayOfMonth, DaysInMonth, Covers;
    var c := CivilOf(day);
    forall y ensures DayOfMonth(y, r.emon, r.emday) == Some(MkDay(y, r.emon, r.emday))
    {
      assert r.emday <= DaysInMonth(y, r.emon);
      DayOfMonthMeans(y, r.emon, r.emday);
    }
    forall y ensures DayOfMonth(y, r.smon, r.smday) == Some(MkDay(y, r.smon, r.smday))
    {
      assert r.smday <= DaysInMonth(y, r.smon);
      DayOfMonthMeans(y, r.smon, r.smday);
    }
    DateOfYear(c.year, c.month, c.mday);
    DateOfYear(c.year - 1, r.smon, r.smday);
    DateOfYear(c.year, r.smon, r.smday);
    DateOfYear(c.year, r.emon, r.emday);
    DateOfYear(c.year + 1, r.emon, r.emday);
    var year := if day <= MkDay(c.year, r.emon, r.emday) then c.year - 1 else c.year;
    var first, last := MkDay(year, r.smon, r.smday), MkDay(year + 1, r.emon, r.emday);
    assert MonthDateDays(r, c.year - 1, 3, day) == (Some(first), Some(last + 1));
    z.MidnightsIncrease(first, last + 1);
    CoversSpan(z, r, MONTH_DATE, day, first, Some(last + 1));
  }

  lemma DateOfYear(y: int, m: Month, d: int)
    requires 1 <= d <= DaysInMonth(y, m)
    ensures YearStart(y) <= MkDay(y, m, d) < YearStart(y + 1)
  {
    MonthInYear(y, m);
  }

  lemma DateInYear(y: int, m1: Month, d1: int, m2: Month, d2: int)
    requires 1 <= d1 <= DaysInMonth(y, m1) && 1 <= d2 <= DaysInMonth(y, m2)
    requires m1 < m2 || (m1 == m2 && d1 <= d2)
    ensures YearStart(y) <= MkDay(y, m1, d1) <= MkDay(y, m2, d2) < YearStart(y + 1)
  {
    MonthInYear(y, m1);
    MonthInYear(y, m2);
    if m1 < m2 {
      EarlierMonth(y, m1, y, m2);
    }
  }

  /** "february 29 - march 5" also applies to the first of January of every year that is not a leap year. */
  lemma MissingStartDateCoversJanuary(z: Zone, r: DateRange, year: int)
    requires z.Valid() && r.skipInterval <= 1 && !Leap(year) && z.Midnight(MkDay(year, 0, 1)) >= 0
    requires r.smon == 1 && r.smday == 29 && r.emon == 2 && r.emday == 5
    ensures Covers(z, r, MONTH_DATE, MkDay(year, 0, 1))
  {
    hide CivilOf, Zone.Valid, Covers;
    var day := MkDay(year, 0, 1);
    CivilRoundTrip(year, 0, 1);
    EarlierMonth(year, 0, year, 2);
    MonthDateCoversExactly(z, r, day);
  }

  /** "monday 2 - thursday 3" of every month: from the start weekday to the end weekday of the day's own month,
      or to the end of the month when the end weekday is missing. Without the start weekday it does not apply. */
  lemma WeekDayCovers(z: Zone, r: DateRange, day: int)
    requires z.Valid() && r.skipInterval <= 1
    requires r.swdayOffset >= -4 && r.swdayOffset != 0 && r.ewdayOffset >= -4 && r.ewdayOffset != 0
    ensures var c := CivilOf(day);
      var start := WeekdayOfMonth(c.year, c.month, r.swday, r.swdayOffset);
      var end := WeekdayOfMonth(c.year, c.month, r.ewday, r.ewdayOffset);
      Covers(z, r, WEEK_DAY, day) <==> start.Some? && start.value <= day && (end.None? || day <= end.value)
  {
    hide CivilOf, Zone.Valid, MonthStart, DayOfMonth, WeekdayOfMonth;
    var c := CivilOf(day);
    var current, next := (c.year, c.month), NextMonth(c.year, c.month);
    NextMonthFollows(c.year, c.month);
    WeekdayInMonth(c.year, c.month, r.ewday, r.ewdayOffset);
    WeekdayInMonth(next.0, next.1, r.swday, r.swdayOffset);
    MissingEndDay(next.0, next.1);
    var first := WeekDayDays(r, current);
    var days := if first.Some? && first.value.1 <= day then WeekDayDays(r, next) else first;
    if days.Some? {
      CoversSpan(z, r, WEEK_DAY, day, days.value.0, Some(days.value.1));
    }
  }

  /** "monday 3 february - thursday 4 april": the days from the one weekday to the other of the same year. */
  lemma MonthWeekDayCovers(z: Zone, r: DateRange, day: int)
    requires z.Valid() && r.skipInterval <= 1 && r.smon <= r.emon
    ensures var year := CivilOf(day).year;
      var start := WeekdayOfMonth(year, r.smon, r.swday, r.swdayOffset);
      var end := WeekdayOfMonth(year, r.emon, r.ewday, r.ewdayOffset);
      Covers(z, r, MONTH_WEEK_DAY, day) <==> start.Some? && end.Some? && start.value <= day <= end.value
  {
    hide CivilOf, Zone.Valid, WeekdayOfMonth, Covers;
    var year := CivilOf(day).year;
    CoversBetween(z, r, MONTH_WEEK_DAY, day, WeekdayOfMonth(year, r.smon, r.swday, r.swdayOffset),
                  WeekdayOfMonth(year, r.emon, r.ewday, r.ewdayOffset));
  }

  /** "thursday 4 november - monday 1 february": up to the end weekday of this year and from the start weekday on. The
      whole range is dropped when last year lacks the start weekday or this year the end weekday, and its second
      half when this year lacks the start weekday or the next the end weekday. */
  lemma MonthWeekDayAcrossYearsCovers(z: Zone, r: DateRange, day: int)
    requires z.Valid() && r.skipInterval <= 1 && r.smon > r.emon
    requires r.swdayOffset >= -4 && r.swdayOffset != 0 && r.ewdayOffset >= -4 && r.ewdayOffset != 0
    ensures var year := CivilOf(day).year;
      var before := WeekdayOfMonth(year - 1, r.smon, r.swday, r.swdayOffset);
      var end := WeekdayOfMonth(year, r.emon, r.ewday, r.ewdayOffset);
      var start := WeekdayOfMonth(year, r.smon, r.swday, r.swdayOffset);
      var after := WeekdayOfMonth(year + 1, r.emon, r.ewday, r.ewdayOffset);
      Covers(z, r, MONTH_WEEK_DAY, day) <==>
        before.Some? && end.Some? && (day <= end.value || (start.Some? && after.Some? && start.value <= day))
  {
    hide CivilOf, Zone.Valid, WeekdayOfMonth, Covers, MonthStart, DaysInMonth;
    var c := CivilOf(day);
    DateOfYear(c.year, c.month, c.mday);
    WeekdayInYear(c.year - 1, r.smon, r.swday, r.swdayOffset);
    WeekdayInYear(c.year, r.emon, r.ewday, r.ewdayOffset);
    WeekdayInYear(c.year + 1, r.emon, r.ewday, r.ewdayOffset);
    var before := WeekdayOfMonth(c.year - 1, r.smon, r.swday, r.swdayOffset);
    var end := WeekdayOfMonth(c.year, r.emon, r.ewday, r.ewdayOffset);
    if before.Some? && end.Some? && end.value < day {
      CoversBetween(z, r, MONTH_WEEK_DAY, day, WeekdayOfMonth(c.year, r.smon, r.swday, r.swdayOffset),
                    WeekdayOfMonth(c.year + 1, r.emon, r.ewday, r.ewdayOffset));
    } else {
      CoversBetween(z, r, MONTH_WEEK_DAY, day, before, end);
    }
  }

  lemma WeekdayInYear(year: int, month: Month, weekday: DayOfWeek, offset: int)
    requires offset >= -4 && offset != 0
    ensures var day := WeekdayOfMonth(year, month, weekday, offset);
      day.Some? ==> YearStart(year) <= day.value < YearStart(year + 1)
  {
    hide WeekdayOfMonth, MonthStart, YearStart;
    WeekdayInMonth(year, month, weekday, offset);
    MonthInYear(year, month);
  }

  lemma WeekdayInMonth(year: int, month: Month, weekday: DayOfWeek, offset: int)
    requires offset >= -4 && offset != 0
    ensures var day := WeekdayOfMonth(year, month, weekday, offset); day.Some? ==> InMonth(day.value, year, month)
  {
  }

  lemma MissingEndDay(year: int, month: Month)
    ensures DayOfMonth(year, month, 0).value == MonthStart(year, month) + DaysInMonth(year, month)
  {
  }

  // ----- skip intervals and daylight saving -----

  lemma RemainderIsUnique(a: int, n: int, q: int, m: int)
    requires n > 0 && 0 <= m < n && a == q * n + m
    ensures a % n == m
  {
    var d := a / n - q;
    assert d * n == m - a % n;
    MultipleIsFar(d, n);
  }

  lemma MultipleIsFar(d: int, n: int)
    requires n > 0
    ensures d == 0 || d * n >= n || d * n <= -n
  {
    if d >= 1 {
      assert d * n == n + (d - 1) * n;
    } else if d <= -1 {
      assert d * n == -n + (d + 1) * n;
    }
  }

  lemma NextRemainder(a: int, n: int)
    requires n > 1
    ensures (a + 1) % n == if a % n == n - 1 then 0 else a % n + 1
  {
    if a % n == n - 1 {
      assert a + 1 == (a / n + 1) * n;
      RemainderIsUnique(a + 1, n, a / n + 1, 0);
    } else {
      RemainderIsUnique(a + 1, n, a / n, a % n + 1);
    }
  }

  /** "2009-08-11 / 3": inside its span the range applies every third day after its start. But days are counted
      in units of 86400 seconds: when the clock has been moved forward on the way, the day after each hit is
      covered as well. */
  lemma SkipCovers(z: Zone, r: DateRange, kind: nat, day: int, start: int, end: Option<int>)
    requires z.Valid() && r.skipInterval > 1
    requires KindSpan(z, r, kind, day) == TimeSpan(true, z.Midnight(start), TimeOf(z, end))
    requires start <= day && (end.None? || day < end.value)
    ensures var shortened := z.Midnight(day) - z.Midnight(start) < DAY * (day - start);
      Covers(z, r, kind, day) <==>
        (day - start) % r.skipInterval == 0 || (shortened && (day - start - 1) % r.skipInterval == 0)
  {
    hide KindSpan, Zone.Valid, Zone.AddRoundDays;
    var n, skip := day - start, r.skipInterval;
    z.MidnightsIncrease(start, day);
    NoTimeMeansNone(z, Some(start));
    NoTimeMeansNone(z, end);
    if end.Some? { z.MidnightsIncrease(day, end.value); }
    var days := (z.Midnight(day) - z.Midnight(start)) / DAY;
    assert days == if z.Midnight(day) - z.Midnight(start) < DAY * n then n - 1 else n;
    var hit := if days % skip == 0 then days else days - days % skip + skip;
    z.AddRoundDaysIsCalendarDays(start, hit);
    z.MidnightsIncrease(day, start + hit);
    NoTimeMeansNone(z, Some(start + hit));
    assert Covers(z, r, kind, day) <==> start + hit <= day;
    NextRemainder(days, skip);
  }

  // ----- two time zones -----

  /** A zone without daylight saving. */
  function FixedZone(base: int): Zone {
    Zone(base, (day, s) => DAY * day + s + base)
  }

  /** A zone that moves its clock forward from 02:00 to 03:00 on one day. */
  function SpringZone(base: int, shiftDay: int): Zone {
    Zone(base, (day, s) =>
      DAY * day + s + base - if day > shiftDay || (day == shiftDay && s >= 3 * HOUR) then HOUR else 0)
  }

  lemma WholeMinutes(base: int, day: int)
    requires base % 60 == 0
    ensures (DAY * day + base) % 60 == 0 && (DAY * day + base - HOUR) % 60 == 0
  {
    var q := base / 60;
    Sixties(1440 * day + q);
    Sixties(1440 * day + q - 60);
  }

  lemma Sixties(k: int)
    ensures 60 * k % 60 == 0
  {
  }

  lemma ZonesAreValid(base: int, shiftDay: int)
    requires base % 60 == 0
    ensures FixedZone(base).Valid() && SpringZone(base, shiftDay).Valid()
  {
    forall day ensures FixedZone(base).ValidDay(day) {
      WholeMinutes(base, day);
    }
    forall day ensures SpringZone(base, shiftDay).ValidDay(day) {
      WholeMinutes(base, day);
    }
  }

  /** Every second day from the day of the change on: the very next day is covered too. */
  lemma SkipBreaksInSpring(base: int, r: DateRange)
    requires base % 60 == 0 && r.skipInterval == 2 && r.eyear == 0
    ensures var start := MkDay(r.syear, r.smon, r.smday);
      && Covers(FixedZone(base), r, CALENDAR_DATE, start) && !Covers(FixedZone(base), r, CALENDAR_DATE, start + 1)
      && Covers(SpringZone(base, start), r, CALENDAR_DATE, start + 1)
  {
    hide MkDay, Covers, Zone.Valid;
    var start := MkDay(r.syear, r.smon, r.smday);
    ZonesAreValid(base, start);
    SkipCovers(FixedZone(base), r, CALENDAR_DATE, start, start, None);
    SkipCovers(FixedZone(base), r, CALENDAR_DATE, start + 1, start, None);
    SkipCovers(SpringZone(base, start), r, CALENDAR_DATE, start + 1, start, None);
  }
}
