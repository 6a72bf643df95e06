/** The calendar exceptions of a time period: the five kinds of date ranges, their skip intervals, and the
    time ranges of a day (src/timeperiod.cc, lines 224-703). */
module DateRanges {
  import opened Options
  import opened Calendar
  import opened TimeZones

  /** Seconds since midnight; the configuration accepts 0 to 86400. */
  type Seconds = s: int | 0 <= s <= 86400

  datatype TimeRange = TimeRange(rangeStart: Seconds, rangeEnd: Seconds)

  type DayOfWeek = w: int | 0 <= w < 7

  datatype DateRange = DateRange(
    syear: int, smon: Month, smday: int, swday: DayOfWeek, swdayOffset: int,
    eyear: int, emon: Month, emday: int, ewday: DayOfWeek, ewdayOffset: int,
    skipInterval: int, times: seq<TimeRange>)

  const CALENDAR_DATE := 0
  const MONTH_DATE := 1
  const MONTH_DAY := 2
  const MONTH_WEEK_DAY := 3
  const WEEK_DAY := 4
  const DATERANGE_TYPES := 5

  /** The preferred time and its broken-down local day. */
  datatype TimeInfo = TimeInfo(preferredTime: int, day: int, preftime: Civil, wday: DayOfWeek, midnight: int)

  function TimeInfoOf(z: Zone, t: int): TimeInfo {
    var day := z.DayOf(t);
    TimeInfo(t, day, CivilOf(day), WeekDay(day), z.Midnight(day))
  }

  /** The midnights between which a date range applies; end is exclusive, NO_TIME leaves that side open. */
  datatype TimeSpan = TimeSpan(ok: bool, start: int, end: int)

  const NO_SPAN := TimeSpan(false, NO_TIME, NO_TIME)

  function TimeOf(z: Zone, day: Option<int>): int {
    match day case Some(d) => z.Midnight(d) case None => NO_TIME
  }

  function DayAfter(day: Option<int>): Option<int> {
    match day case Some(d) => Some(d + 1) case None => None
  }

  function SpanBetween(z: Zone, start: Option<int>, end: Option<int>): TimeSpan {
    var s, e := TimeOf(z, start), TimeOf(z, end);
    TimeSpan(s < e, s, e)
  }

  // ----- what each kind of range selects, seen from a given day -----

  function CalendarDateSpan(z: Zone, r: DateRange): TimeSpan {
    TimeSpan(true, z.Midnight(MkDay(r.syear, r.smon, r.smday)),
             if r.eyear != 0 then z.Midnight(MkDay(r.eyear, r.emon, r.emday) + 1) else NO_TIME)
  }

  predicate EndBeforeStart(r: DateRange) {
    r.smon > r.emon || (r.smon == r.emon && r.smday > r.emday)
  }

  /** The range of the first of the given years that is not over yet on that day. */
  function MonthDateDays(r: DateRange, year: int, tries: nat, day: int): (Option<int>, Option<int>)
    requires tries > 0
    decreases tries
  {
    var start := DayOfMonth(year, r.smon, r.smday);
    var end := DayAfter(DayOfMonth(year + if EndBeforeStart(r) then 1 else 0, r.emon, r.emday));
    if tries == 1 || (end.Some? && day < end.value) then (start, end)
    else MonthDateDays(r, year + 1, tries - 1, day)
  }

  function MonthDateSpan(z: Zone, r: DateRange, day: int): TimeSpan {
    var year := CivilOf(day).year - if EndBeforeStart(r) then 1 else 0;
    var (start, end) := MonthDateDays(r, year, 3, day);
    SpanBetween(z, start, end)
  }

  function PreviousMonth(year: int, month: Month): (int, Month) {
    if month == 0 then (year - 1, 11) else (year, month - 1)
  }

  /** The range reaches into the next month: "day 20 - day 5", and every range with two negative days. */
  predicate MonthDecay(smday: int, emday: int) {
    if smday >= 0 then emday >= 0 && emday < smday
    else if emday >= 0 then smday > emday else true
  }

  function MonthDayBetween(z: Zone, sm: (int, Month), smday: int, em: (int, Month), emday: int): TimeSpan {
    var start, end := DayOfMonth(sm.0, sm.1, smday), DayOfMonth(em.0, em.1, emday);
    if start.None? || end.None? then NO_SPAN else SpanBetween(z, start, DayAfter(end))
  }

  function MonthDaySpan(z: Zone, r: DateRange, day: int): TimeSpan {
    var current := (CivilOf(day).year, CivilOf(day).month);
    var earlier := if MonthDecay(r.smday, r.emday) then PreviousMonth(current.0, current.1) else current;
    var end := DayOfMonth(current.0, current.1, r.emday);
    if DayOfMonth(earlier.0, earlier.1, r.smday).Some? && end.Some?
       && MonthDecay(r.smday, r.emday) && end.value + 1 <= day
    then MonthDayBetween(z, current, r.smday, NextMonth(current.0, current.1), r.emday)
    else MonthDayBetween(z, earlier, r.smday, current, r.emday)
  }

  function MonthWeekDayBetween(z: Zone, r: DateRange, startYear: int, endYear: int): TimeSpan {
    var start := WeekdayOfMonth(startYear, r.smon, r.swday, r.swdayOffset);
    var end := WeekdayOfMonth(endYear, r.emon, r.ewday, r.ewdayOffset);
    if start.None? || end.None? then NO_SPAN else SpanBetween(z, start, DayAfter(end))
  }

  function MonthWeekDaySpan(z: Zone, r: DateRange, day: int): TimeSpan {
    var year := CivilOf(day).year;
    if r.smon <= r.emon then MonthWeekDayBetween(z, r, year, year) else
    var start := WeekdayOfMonth(year - 1, r.smon, r.swday, r.swdayOffset);
    var end := WeekdayOfMonth(year, r.emon, r.ewday, r.ewdayOffset);
    if start.Some? && end.Some? && end.value + 1 <= day then MonthWeekDayBetween(z, r, year, year + 1)
    else MonthWeekDayBetween(z, r, year - 1, year)
  }

  /** The first and the excluded last day of a weekday range inside one month. A missing end weekday makes the
      range run to the first day of the month after the next. */
  function WeekDayDays(r: DateRange, month: (int, Month)): Option<(int, int)> {
    var start := WeekdayOfMonth(month.0, month.1, r.swday, r.swdayOffset);
    var last := WeekdayOfMonth(month.0, month.1, r.ewday, r.ewdayOffset);
    var next := NextMonth(month.0, month.1);
    var end := if last.Some? then last.value + 1 else DayOfMonth(next.0, next.1, 0).value;
    if start.None? || start.value > end then None else Some((start.value, end))
  }

  function WeekDaySpan(z: Zone, r: DateRange, day: int): TimeSpan {
    var current := (CivilOf(day).year, CivilOf(day).month);
    var first := WeekDayDays(r, current);
    var days := if first.Some? && first.value.1 <= day then WeekDayDays(r, NextMonth(current.0, current.1)) else first;
    match days
    case None => NO_SPAN
    case Some((start, end)) => TimeSpan(true, z.Midnight(start), z.Midnight(end))
  }

  function KindSpan(z: Zone, r: DateRange, kind: nat, day: int): TimeSpan {
    match kind
    case 0 => CalendarDateSpan(z, r)
    case 1 => MonthDateSpan(z, r, day)
    case 2 => MonthDaySpan(z, r, day)
    case 3 => MonthWeekDaySpan(z, r, day)
    case 4 => WeekDaySpan(z, r, day)
    case _ => NO_SPAN
  }

  /** The start moved to the next day the skip interval hits; days are counted in units of 86400 seconds. */
  function SkipTo(z: Zone, start: int, midnight: int, skip: int): int
    requires skip > 1
  {
    var days := (midnight - start) / DAY;
    z.AddRoundDays(start, DAY * if days % skip == 0 then days else days - days % skip + skip)
  }

  /** What _daterange_to_time_t yields at any time of the given day. */
  function RangeSpan(z: Zone, r: DateRange, kind: nat, day: int): TimeSpan {
    var span := KindSpan(z, r, kind, day);
    var midnight := z.Midnight(day);
    if span.ok && r.skipInterval > 1 && (span.start <= midnight || span.start == NO_TIME)
    then span.(start := SkipTo(z, span.start, midnight, r.skipInterval)) else span
  }

  /** The exception applies on the given day. */
  predicate Covers(z: Zone, r: DateRange, kind: nat, day: int) {
    var span := RangeSpan(z, r, kind, day);
    && span.ok
    && (span.start == NO_TIME || span.start <= z.Midnight(day))
    && (span.end == NO_TIME || z.Midnight(day) < span.end)
  }

  // ----- the conversion routines -----

  /** A result that says no more than "failed", or exactly the span. */
  ghost predicate Yields(span: TimeSpan, ok: bool, start: int, end: int) {
    ok == span.ok && (ok ==> start == span.start && end == span.end)
  }

  ghost predicate InfoFor(z: Zone, ti: TimeInfo) {
    z.Valid() && ti.preferredTime >= 0 && ti == TimeInfoOf(z, ti.preferredTime)
  }

  method CalculateDayOfMonthTime(z: Zone, year: int, month: Month, monthday: int) returns (midnight: int)
    ensures midnight == TimeOf(z, DayOfMonth(year, month, monthday))
  {
    var day := CalculateTimeFromDayOfMonth(year, month, monthday);
    midnight := TimeOf(z, day);
  }

  method CalculateWeekdayOfMonthTime(z: Zone, year: int, month: Month, weekday: DayOfWeek, offset: int)
    returns (midnight: int)
    ensures midnight == TimeOf(z, WeekdayOfMonth(year, month, weekday, offset))
  {
    var day := CalculateTimeFromWeekdayOfMonth(year, month, weekday, offset);
    midnight := TimeOf(z, day);
  }

  lemma NoTimeMeansNone(z: Zone, day: Option<int>)
    requires z.Valid()
    ensures TimeOf(z, day) == NO_TIME <==> day.None?
    ensures day.Some? ==> z.AddRoundDays(TimeOf(z, day), DAY) == TimeOf(z, DayAfter(day))
  {
    if day.Some? {
      assert z.ValidDay(day.value);
      z.AddRoundDaysIsCalendarDays(day.value, 1);
    }
  }

  /** _daterange_calendar_date_to_time_t. */
  method DaterangeCalendarDateToTime(z: Zone, r: DateRange, ti: TimeInfo) returns (ok: bool, start: int, end: int)
    requires InfoFor(z, ti)
    ensures Yields(CalendarDateSpan(z, r), ok, start, end)
  {
    start := z.Midnight(MkDay(r.syear, r.smon, r.smday));
    if r.eyear != 0 {
      end := z.Midnight(MkDay(r.eyear, r.emon, r.emday));
      z.AddRoundDaysIsCalendarDays(MkDay(r.eyear, r.emon, r.emday), 1);
      end := AddRoundDaysToMidnight(z, end, 24 * 60 * 60);
    } else {
      end := NO_TIME;
    }
    ok := true;
  }

  /** _daterange_month_date_to_time_t. */
  method DaterangeMonthDateToTime(z: Zone, r: DateRange, ti: TimeInfo) returns (ok: bool, start: int, end: int)
    requires InfoFor(z, ti)
    ensures Yields(MonthDateSpan(z, r, ti.day), ok, start, end)
  {
    hide DayOfMonth, WeekdayOfMonth, CivilOf, WeekDay, Zone.DayOf, Zone.AddRoundDays, Zone.Valid;
    var endBeforeStart := r.smon > r.emon || (r.smon == r.emon && r.smday > r.emday);
    var year := if endBeforeStart then ti.preftime.year - 1 else ti.preftime.year;
    ghost var wanted := MonthDateDays(r, year, 3, ti.day);
    start, end := NO_TIME, NO_TIME;
    var found := false;
    var i := 0;
    while i < 3 && !found
      invariant 0 <= i <= 3
      invariant !found && i < 3 ==> wanted == MonthDateDays(r, year, 3 - i, ti.day)
      invariant found || i == 3 ==> start == TimeOf(z, wanted.0) && end == TimeOf(z, wanted.1)
      decreases 3 - i
    {
      start := CalculateDayOfMonthTime(z, year, r.smon, r.smday);
      end := CalculateDayOfMonthTime(z, year + if endBeforeStart then 1 else 0, r.emon, r.emday);
      ghost var last := DayOfMonth(year + if endBeforeStart then 1 else 0, r.emon, r.emday);
      NoTimeMeansNone(z, last);
      if end != NO_TIME {
        end := AddRoundDaysToMidnight(z, end, 24 * 60 * 60);
        z.BeforeMidnight(ti.preferredTime, last.value + 1);
        if ti.preferredTime < end {
          found := true;
        }
      }
      i, year := i + 1, year + 1;
    }
    ok := start < end;
  }

  /** _daterange_month_day_to_time_t. */
  method DaterangeMonthDayToTime(z: Zone, r: DateRange, ti: TimeInfo) returns (ok: bool, start: int, end: int)
    requires InfoFor(z, ti)
    ensures Yields(MonthDaySpan(z, r, ti.day), ok, start, end)
  {
    hide DayOfMonth, WeekdayOfMonth, CivilOf, WeekDay, Zone.DayOf, Zone.AddRoundDays, Zone.Valid;
    ghost var current := (ti.preftime.year, ti.preftime.month);
    ghost var previous := PreviousMonth(current.0, current.1);
    ghost var next := NextMonth(current.0, current.1);
    var decay;
    if r.smday >= 0 {
      decay := if r.emday >= 0 then r.emday < r.smday else false;
    } else {
      decay := if r.emday >= 0 then r.smday > r.emday else true;
    }
    NoTimeMeansNone(z, DayOfMonth(current.0, current.1, r.emday));
    NoTimeMeansNone(z, DayOfMonth(current.0, current.1, r.smday));
    if !decay {
      start := CalculateDayOfMonthTime(z, ti.preftime.year, ti.preftime.month, r.smday);
      end := CalculateDayOfMonthTime(z, ti.preftime.year, ti.preftime.month, r.emday);
      if start == NO_TIME || end == NO_TIME {
        ok := false;
        return;
      }
      end := AddRoundDaysToMidnight(z, end, 24 * 60 * 60);
    } else {
      var year: int, month: Month := ti.preftime.year, ti.preftime.month;
      if month == 0 {
        year, month := year - 1, 11;
      } else {
        month := month - 1;
      }
      NoTimeMeansNone(z, DayOfMonth(previous.0, previous.1, r.smday));
      start := CalculateDayOfMonthTime(z, year, month, r.smday);
      end := CalculateDayOfMonthTime(z, ti.preftime.year, ti.preftime.month, r.emday);
      if start == NO_TIME || end == NO_TIME {
        ok := false;
        return;
      }
      end := AddRoundDaysToMidnight(z, end, 24 * 60 * 60);
      z.BeforeMidnight(ti.preferredTime, DayOfMonth(current.0, current.1, r.emday).value + 1);
      if ti.preferredTime >= end {
        year, month := ti.preftime.year, ti.preftime.month;
        if month == 11 {
          year, month := year + 1, 0;
        } else {
          month := month + 1;
        }
        NoTimeMeansNone(z, DayOfMonth(next.0, next.1, r.emday));
        start := CalculateDayOfMonthTime(z, ti.preftime.year, ti.preftime.month, r.smday);
        end := CalculateDayOfMonthTime(z, year, month, r.emday);
        if start == NO_TIME || end == NO_TIME {
          ok := false;
          return;
        }
        end := AddRoundDaysToMidnight(z, end, 24 * 60 * 60);
      }
    }
    ok := start < end;
  }

  /** _daterange_month_week_day_to_time_t. */
  method DaterangeMonthWeekDayToTime(z: Zone, r: DateRange, ti: TimeInfo) returns (ok: bool, start: int, end: int)
    requires InfoFor(z, ti)
    ensures Yields(MonthWeekDaySpan(z, r, ti.day), ok, start, end)
  {
    hide DayOfMonth, WeekdayOfMonth, CivilOf, WeekDay, Zone.DayOf, Zone.AddRoundDays, Zone.Valid;
    var year := ti.preftime.year;
    var decay := r.smon > r.emon;
    NoTimeMeansNone(z, WeekdayOfMonth(year, r.emon, r.ewday, r.ewdayOffset));
    NoTimeMeansNone(z, WeekdayOfMonth(year, r.smon, r.swday, r.swdayOffset));
    if !decay {
      start := CalculateWeekdayOfMonthTime(z, year, r.smon, r.swday, r.swdayOffset);
      end := CalculateWeekdayOfMonthTime(z, year, r.emon, r.ewday, r.ewdayOffset);
      if start == NO_TIME || end == NO_TIME {
        ok := false;
        return;
      }
      end := AddRoundDaysToMidnight(z, end, 24 * 60 * 60);
    } else {
      NoTimeMeansNone(z, WeekdayOfMonth(year - 1, r.smon, r.swday, r.swdayOffset));
      start := CalculateWeekdayOfMonthTime(z, year - 1, r.smon, r.swday, r.swdayOffset);
      end := CalculateWeekdayOfMonthTime(z, year, r.emon, r.ewday, r.ewdayOffset);
      if start == NO_TIME || end == NO_TIME {
        ok := false;
        return;
      }
      end := AddRoundDaysToMidnight(z, end, 24 * 60 * 60);
      z.BeforeMidnight(ti.preferredTime, WeekdayOfMonth(year, r.emon, r.ewday, r.ewdayOffset).value + 1);
      if ti.preferredTime >= end {
        NoTimeMeansNone(z, WeekdayOfMonth(year + 1, r.emon, r.ewday, r.ewdayOffset));
        start := CalculateWeekdayOfMonthTime(z, year, r.smon, r.swday, r.swdayOffset);
        end := CalculateWeekdayOfMonthTime(z, year + 1, r.emon, r.ewday, r.ewdayOffset);
        if start == NO_TIME || end == NO_TIME {
          ok := false;
          return;
        }
        end := AddRoundDaysToMidnight(z, end, 24 * 60 * 60);
      }
    }
    ok := start < end;
  }

  /** The end of a weekday range of the month after the given one is always still to come, so that the
      search for the right month takes at most two passes. */
  lemma SecondPassSuffices(r: DateRange, day: int)
    ensures var c := CivilOf(day);
      var days := WeekDayDays(r, NextMonth(c.year, c.month));
      days.Some? ==> day < days.value.1
  {
    var c := CivilOf(day);
    var next := NextMonth(c.year, c.month);
    var last := NextMonth(next.0, next.1);
    NextMonthFollows(c.year, c.month);
    NextMonthFollows(next.0, next.1);
    assert day < MonthStart(next.0, next.1) <= MonthStart(last.0, last.1);
    var end := WeekdayOfMonth(next.0, next.1, r.ewday, r.ewdayOffset);
    assert end.Some? ==> end.value >= MonthStart(next.0, next.1) - 1;
  }

  /** _daterange_week_day_to_time_t. */
  method DaterangeWeekDayToTime(z: Zone, r: DateRange, ti: TimeInfo) returns (ok: bool, start: int, end: int)
    requires InfoFor(z, ti)
    ensures Yields(WeekDaySpan(z, r, ti.day), ok, start, end)
  {
    hide DayOfMonth, WeekdayOfMonth, CivilOf, WeekDay, Zone.DayOf, Zone.AddRoundDays, Zone.Valid;
    var year := ti.preftime.year;
    var month := ti.preftime.month;
    ghost var current := (year, month);
    ghost var next := NextMonth(year, month);
    ghost var passes := 0;
    SecondPassSuffices(r, ti.day);
    while true
      invariant 0 <= passes <= 1
      invariant (year, month) == if passes == 0 then current else next
      invariant passes == 1 ==> WeekDayDays(r, current).Some? && WeekDayDays(r, current).value.1 <= ti.day
      decreases 2 - passes
    {
      ghost var startDay := WeekdayOfMonth(year, month, r.swday, r.swdayOffset);
      ghost var lastDay := WeekdayOfMonth(year, month, r.ewday, r.ewdayOffset);
      NoTimeMeansNone(z, startDay);
      NoTimeMeansNone(z, lastDay);
      start := CalculateWeekdayOfMonthTime(z, year, month, r.swday, r.swdayOffset);
      end := CalculateWeekdayOfMonthTime(z, year, month, r.ewday, r.ewdayOffset);
      ghost var endDay;
      if end == NO_TIME {
        if r.ewdayOffset < 0 {
          ok := false;
          return;
        }
        var endMonth: Month, endYear;
        if month != 11 {
          endMonth, endYear := month + 1, year;
        } else {
          endMonth, endYear := 0, year + 1;
        }
        end := CalculateDayOfMonthTime(z, endYear, endMonth, 0);
        NoTimeMeansNone(z, DayOfMonth(endYear, endMonth, 0));
        endDay := DayOfMonth(endYear, endMonth, 0).value;
      } else {
        end := AddRoundDaysToMidnight(z, end, 24 * 60 * 60);
        NoTimeMeansNone(z, DayAfter(lastDay));
        endDay := lastDay.value + 1;
      }
      assert startDay.Some? ==> (start > end <==> startDay.value > endDay) by {
        if startDay.Some? { z.MidnightsIncrease(endDay, startDay.value); }
      }
      if start == NO_TIME || end == NO_TIME || start > end {
        ok := false;
        return;
      }
      z.BeforeMidnight(ti.preferredTime, endDay);
      if ti.preferredTime < end {
        break;
      }
      month := ti.preftime.month;
      if month != 11 {
        month := month + 1;
      } else {
        year, month := year + 1, 0;
      }
      passes := passes + 1;
    }
    ok := true;
  }

  /** Both ends of a span are midnights, unless they are open. */
  lemma SpanEnds(z: Zone, r: DateRange, kind: nat, day: int) returns (first: int, last: int)
    requires z.Valid()
    ensures var span := KindSpan(z, r, kind, day);
      && (span.start == NO_TIME || span.start == z.Midnight(first))
      && (span.end == NO_TIME || span.end == z.Midnight(last))
  {
    var span := KindSpan(z, r, kind, day);
    first :| span.start == NO_TIME || span.start == z.Midnight(first);
    last :| span.end == NO_TIME || span.end == z.Midnight(last);
  }

  /** The span, moved on when its start lies before the preferred time. */
  function SpanAt(z: Zone, r: DateRange, span: TimeSpan, t: int): TimeSpan {
    if r.skipInterval > 1 && span.start < t
    then span.(start := SkipTo(z, span.start, z.Midnight(z.DayOf(t)), r.skipInterval)) else span
  }

  /** At any time of a day, comparing the start with the preferred time gives the span of that day. */
  lemma SkippedStart(z: Zone, r: DateRange, kind: nat, t: int)
    requires z.Valid() && t >= 0
    ensures var span := KindSpan(z, r, kind, z.DayOf(t));
      span.ok ==> RangeSpan(z, r, kind, z.DayOf(t)) == SpanAt(z, r, span, t)
  {
    hide KindSpan, CivilOf, WeekDay, Zone.DayOf, Zone.Valid;
    var first, _ := SpanEnds(z, r, kind, z.DayOf(t));
    z.DayOfBounds(t);
    z.BeforeMidnight(t, first);
    z.MidnightsIncrease(first, z.DayOf(t));
    z.AddRoundDaysIsCalendarDays(first, 0);
  }

  /** _daterange_to_time_t: the span of the range's kind, moved to the next day its skip interval hits. */
  method DaterangeToTime(z: Zone, r: DateRange, kind: nat, ti: TimeInfo) returns (ok: bool, start: int, end: int)
    requires InfoFor(z, ti)
    ensures Yields(RangeSpan(z, r, kind, ti.day), ok, start, end)
  {
    hide CalendarDateSpan, MonthDateSpan, MonthDaySpan, MonthWeekDaySpan, WeekDaySpan;
    hide CivilOf, WeekDay, Zone.DayOf, Zone.AddRoundDays, Zone.Valid;
    ok, start, end := false, NO_TIME, NO_TIME;
    if kind >= DATERANGE_TYPES {
      return;
    }
    if kind == CALENDAR_DATE {
      ok, start, end := DaterangeCalendarDateToTime(z, r, ti);
    } else if kind == MONTH_DATE {
      ok, start, end := DaterangeMonthDateToTime(z, r, ti);
    } else if kind == MONTH_DAY {
      ok, start, end := DaterangeMonthDayToTime(z, r, ti);
    } else if kind == MONTH_WEEK_DAY {
      ok, start, end := DaterangeMonthWeekDayToTime(z, r, ti);
    } else {
      ok, start, end := DaterangeWeekDayToTime(z, r, ti);
    }
    if !ok {
      return;
    }
    SkippedStart(z, r, kind, ti.preferredTime);
    if r.skipInterval > 1 {
      if start < ti.preferredTime {
        var days := (ti.midnight - start) / (3600 * 24);
        if days % r.skipInterval == 0 {
          start := AddRoundDaysToMidnight(z, start, days * 24 * 60 * 60);
        } else {
          start := AddRoundDaysToMidnight(z, start, (days - days % r.skipInterval + r.skipInterval) * 24 * 60 * 60);
        }
      }
    }
  }

  // ----- exceptions of an excluded period -----

  /** What _earliest_midnight_in_daterange finds at any time of the given day: it steps from the start of
      the range by whole skip intervals until it meets or passes that day. */
  function EarliestMidnight(z: Zone, day: int, start: int, end: int, skip: int): int
    requires z.Valid()
    decreases day - z.DayOf(start)
  {
    if start >= end && end != NO_TIME then NO_TIME else
    var next := z.AddRoundDays(start, DAY);
    z.AddRoundDaysProgress(start, 1);
    z.AddRoundDaysProgress(start, if skip <= 1 then 1 else skip);
    z.DayOfBounds(start);
    if z.Midnight(day) < next then start
    else
      z.MidnightsIncrease(z.DayOf(start), day);
      EarliestMidnight(z, day, z.AddRoundDays(start, DAY * if skip <= 1 then 1 else skip), end, skip)
  }

  method EarliestMidnightInDaterange(z: Zone, preferredTime: int, r: DateRange, rangeStart: int, rangeEnd: int)
    returns (midnight: int)
    requires z.Valid()
    ensures midnight == EarliestMidnight(z, z.DayOf(preferredTime), rangeStart, rangeEnd, r.skipInterval)
  {
    hide Zone.Valid, Zone.DayOf, Zone.Midnight, Zone.AddRoundDays;
    ghost var day := z.DayOf(preferredTime);
    var start := rangeStart;
    while start < rangeEnd || rangeEnd == NO_TIME
      invariant EarliestMidnight(z, day, rangeStart, rangeEnd, r.skipInterval) ==
                EarliestMidnight(z, day, start, rangeEnd, r.skipInterval)
      decreases day - z.DayOf(start), start < rangeEnd || rangeEnd == NO_TIME
    {
      var nextDay := AddRoundDaysToMidnight(z, start, 24 * 60 * 60);
      EarliestStep(z, preferredTime, start);
      if preferredTime < start || (preferredTime >= start && preferredTime < nextDay) {
        return start;
      }
      z.AddRoundDaysProgress(start, if r.skipInterval <= 1 then 1 else r.skipInterval);
      if r.skipInterval <= 1 {
        start := nextDay;
      } else {
        start := AddRoundDaysToMidnight(z, start, r.skipInterval * 24 * 60 * 60);
      }
    }
    midnight := NO_TIME;
  }

  /** Within a day it makes no difference at which time the next step is compared. */
  lemma EarliestStep(z: Zone, t: int, start: int)
    requires z.Valid()
    ensures var next := z.AddRoundDays(start, DAY);
      && start < next
      && (t < next <==> z.Midnight(z.DayOf(t)) < next)
      && (next <= t ==> z.DayOf(start) < z.DayOf(t))
  {
    var next := z.AddRoundDays(start, DAY);
    z.AddRoundDaysProgress(start, 1);
    z.DayOfBounds(t);
    z.DayOfBounds(start);
    var day: int :| next == z.Midnight(day);
    z.BeforeMidnight(t, day);
    z.MidnightsIncrease(z.DayOf(t), day);
    z.MidnightIsMidnight(day);
  }

  /** The first day of the pattern start, start + step, ... that does not lie before the given day. */
  function FirstHit(start: int, step: int, day: int): (hit: int)
    requires step >= 1
    ensures hit >= start && hit >= day && (hit == start || hit - step < day)
    decreases day - start
  {
    if day <= start then start else FirstHit(start + step, step, day)
  }

  lemma {:induction false} HitIsOnPattern(start: int, step: int, day: int) returns (k: nat)
    requires step >= 1
    ensures FirstHit(start, step, day) == start + k * step
    decreases day - start
  {
    if day <= start {
      k := 0;
    } else {
      k := HitIsOnPattern(start + step, step, day);
      assert start + step + k * step == start + (k + 1) * step;
      k := k + 1;
    }
  }

  /** Seen from its first midnight, a range offers its first skip day not before the day asked for, or nothing
      once it is over. */
  lemma {:induction false} EarliestMidnightIsFirstHit(z: Zone, day: int, start: int, end: Option<int>, skip: int)
    requires z.Valid()
    ensures var hit := FirstHit(start, if skip <= 1 then 1 else skip, day);
      EarliestMidnight(z, day, z.Midnight(start), TimeOf(z, end), skip)
      == if end.None? || hit < end.value then z.Midnight(hit) else NO_TIME
    decreases day - start
  {
    hide Zone.Valid, Zone.DayOf, Zone.AddRoundDays;
    var step := if skip <= 1 then 1 else skip;
    NoTimeMeansNone(z, end);
    if end.Some? { z.MidnightsIncrease(start, end.value); }
    z.AddRoundDaysIsCalendarDays(start, 1);
    z.AddRoundDaysIsCalendarDays(start, step);
    z.MidnightsIncrease(day, start + 1);
    if start < day {
      EarliestMidnightIsFirstHit(z, day, start + step, end, skip);
    }
  }

  // ----- the time ranges of a day -----

  /** mktime is given hours and minutes only. */
  function WallClock(s: Seconds): Seconds {
    s / 60 / 60 * 3600 + s / 60 % 60 * 60
  }

  function RangeStart(z: Zone, tr: TimeRange, day: int): int { z.at(day, WallClock(tr.rangeStart)) }
  function RangeEnd(z: Zone, tr: TimeRange, day: int): int { z.at(day, WallClock(tr.rangeEnd)) }

  /** A range starts and ends on the minute: the seconds of its bounds are dropped, hours and minutes are kept. */
  lemma RangesKeepMinutes(z: Zone, tr: TimeRange, day: int)
    ensures RangeStart(z, tr, day) == z.at(day, tr.rangeStart - tr.rangeStart % 60)
    ensures RangeEnd(z, tr, day) == z.at(day, tr.rangeEnd - tr.rangeEnd % 60)
  {
  }

  method TimerangeToTime(z: Zone, tr: TimeRange, midnight: int) returns (ok: bool, start: int, end: int)
    ensures start == RangeStart(z, tr, z.DayOf(midnight)) && end == RangeEnd(z, tr, z.DayOf(midnight))
    ensures ok <==> start <= end
  {
    var day := z.DayOf(midnight);
    start := z.at(day, tr.rangeStart / 60 / 60 * 3600 + tr.rangeStart / 60 % 60 * 60);
    end := z.at(day, tr.rangeEnd / 60 / 60 * 3600 + tr.rangeEnd / 60 % 60 * 60);
    ok := start <= end;
  }

  /** The instants the search offers for a range: even an empty range offers its start. */
  predicate Offers(z: Zone, tr: TimeRange, day: int, t: int) {
    var start, end := RangeStart(z, tr, day), RangeEnd(z, tr, day);
    start <= end && (t == start || start <= t < end)
  }

  predicate AnyOffers(z: Zone, ranges: seq<TimeRange>, day: int, t: int) {
    exists tr :: tr in ranges && Offers(z, tr, day, t)
  }

  /** The ranges still have time left that day. */
  ghost predicate TimeLeft(z: Zone, ranges: seq<TimeRange>, day: int, t: int) {
    exists u :: u >= t && AnyOffers(z, ranges, day, u)
  }

  /** r is the first offered instant not before t, or NO_TIME when there is none that day. */
  ghost predicate FirstOffer(z: Zone, ranges: seq<TimeRange>, day: int, t: int, r: int) {
    if r == NO_TIME then !TimeLeft(z, ranges, day, t)
    else r >= t && AnyOffers(z, ranges, day, r) && forall u :: t <= u < r ==> !AnyOffers(z, ranges, day, u)
  }

  method GetNextValidTimeInTimeranges(z: Zone, preferredTime: int, timeranges: seq<TimeRange>)
    returns (earliest: int)
    requires z.Valid() && preferredTime >= 0
    ensures FirstOffer(z, timeranges, z.DayOf(preferredTime), preferredTime, earliest)
  {
    earliest := NO_TIME;
    ghost var day := z.DayOf(preferredTime);
    z.MidnightIsMidnight(day);
    var midnight := z.Midnight(z.DayOf(preferredTime));
    var i := 0;
    while i < |timeranges|
      invariant 0 <= i <= |timeranges|
      invariant FirstOffer(z, timeranges[..i], day, preferredTime, earliest)
    {
      ghost var before := earliest;
      var ok, rangeStart, rangeEnd := TimerangeToTime(z, timeranges[i], midnight);
      if ok {
        if rangeStart >= preferredTime {
          if earliest == NO_TIME || rangeStart < earliest {
            earliest := rangeStart;
          }
        } else if preferredTime < rangeEnd {
          earliest := preferredTime;
        }
      }
      assert timeranges[..i + 1] == timeranges[..i] + [timeranges[i]];
      OneMoreRange(z, timeranges[..i], timeranges[i], day, preferredTime, before, earliest);
      i := i + 1;
    }
    assert timeranges[..i] == timeranges;
  }

  lemma OneMoreRange(z: Zone, ranges: seq<TimeRange>, tr: TimeRange, day: int, t: int, before: int, after: int)
    requires t >= 0 && FirstOffer(z, ranges, day, t, before)
    requires var start, end := RangeStart(z, tr, day), RangeEnd(z, tr, day);
      after == if start <= end && start >= t && (before == NO_TIME || start < before) then start
               else if start <= end && start < t < end then t else before
    ensures FirstOffer(z, ranges + [tr], day, t, after)
  {
    assert forall u :: AnyOffers(z, ranges + [tr], day, u) <==> AnyOffers(z, ranges, day, u) || Offers(z, tr, day, u);
  }
}
