/** What an excluded period takes away, in calendar terms, and where that differs from what the period would offer. */
module ExclusionMeanings {
  import opened Options
  import opened Calendar
  import opened TimeZones
  import opened DateRanges
  import opened DateRangeMeanings
  import opened TimePeriods

  // ----- one exception -----

  /** An exception of an excluded period takes away its time ranges on every day of its span that lies a whole number
      of skip intervals after the start. */
  lemma ExceptionTakesAway(z: Zone, r: DateRange, kind: nat, t: int, start: int, end: Option<int>)
    requires z.Valid()
    requires KindSpan(z, r, kind, z.DayOf(t)) == TimeSpan(true, z.Midnight(start), TimeOf(z, end))
    ensures var day := z.DayOf(t);
      ExceptionExcludes(z, r, kind, t) <==>
        && start <= day && (end.None? || day < end.value)
        && (r.skipInterval > 1 ==> (day - start) % r.skipInterval == 0)
        && AnyInside(z, r.times, day, t)
  {
    hide KindSpan, Zone.Valid, Zone.DayOf, Zone.AddRoundDays;
    var day := z.DayOf(t);
    NoTimeMeansNone(z, Some(start));
    NoTimeMeansNone(z, end);
    z.MidnightsIncrease(day, start);
    z.MidnightsIncrease(start, day);
    if end.Some? {
      z.BeforeMidnight(t, end.value);
    }
    var first := FirstMidnight(z, r, kind, day, start, end);
    EarliestMidnightIsFirstHit(z, day, first, end, r.skipInterval);
    var hit := FirstHit(first, if r.skipInterval <= 1 then 1 else r.skipInterval, day);
    z.MidnightIsMidnight(hit);
    NoTimeMeansNone(z, Some(hit));
    InsideOnItsDay(z, r.times, hit, t);
  }

  /** The ranges of a day contain instants of that day only. */
  lemma InsideOnItsDay(z: Zone, ranges: seq<TimeRange>, day: int, t: int)
    requires z.Valid()
    ensures AnyInside(z, ranges, day, t) ==> day == z.DayOf(t)
  {
    if AnyInside(z, ranges, day, t) {
      var tr :| tr in ranges && Inside(z, tr, day, t);
      InsideIsToday(z, tr, day, t);
    }
  }

  /** The start of the span, moved on by the skip interval: its pattern hits the day exactly if that of the start
      does. */
  lemma FirstMidnight(z: Zone, r: DateRange, kind: nat, day: int, start: int, end: Option<int>) returns (first: int)
    requires z.Valid() && KindSpan(z, r, kind, day) == TimeSpan(true, z.Midnight(start), TimeOf(z, end))
    ensures RangeSpan(z, r, kind, day) == TimeSpan(true, z.Midnight(first), TimeOf(z, end))
    ensures var step := if r.skipInterval <= 1 then 1 else r.skipInterval;
      FirstHit(first, step, day) == day <==> start <= day && (day - start) % step == 0
  {
    hide KindSpan, Zone.Valid, Zone.AddRoundDays;
    first := start;
    z.MidnightsIncrease(day, start);
    z.MidnightsIncrease(start, day);
    NoTimeMeansNone(z, Some(start));
    var skip := r.skipInterval;
    if skip > 1 && start <= day {
      var n := day - start;
      var days := (z.Midnight(day) - z.Midnight(start)) / DAY;
      assert days == n || days == n - 1;
      var hit := if days % skip == 0 then days else days - days % skip + skip;
      z.AddRoundDaysIsCalendarDays(start, hit);
      first := start + hit;
      NextRemainder(n - 1, skip);
    }
  }

  /** So an exception without skip interval takes its ranges away on the days it covers. */
  lemma ExceptionTakesCoveredDays(z: Zone, r: DateRange, kind: nat, t: int, start: int, end: Option<int>)
    requires z.Valid() && r.skipInterval <= 1
    requires KindSpan(z, r, kind, z.DayOf(t)) == TimeSpan(true, z.Midnight(start), TimeOf(z, end))
    ensures ExceptionExcludes(z, r, kind, t) <==>
      Covers(z, r, kind, z.DayOf(t)) && AnyInside(z, r.times, z.DayOf(t), t)
  {
    hide KindSpan, Zone.Valid, Zone.DayOf, ExceptionExcludes, Covers;
    ExceptionTakesAway(z, r, kind, t, start, end);
    CoversSpan(z, r, kind, z.DayOf(t), start, end);
  }

  /** With a skip interval it takes nothing away on the further days the exception covers after the clock was moved
      forward: the period itself applies the exception on the day after a hit, an exclusion of it does not. */
  lemma ExceptionMissesShortenedDay(z: Zone, r: DateRange, kind: nat, t: int, start: int, end: Option<int>)
    requires z.Valid() && r.skipInterval > 1
    requires KindSpan(z, r, kind, z.DayOf(t)) == TimeSpan(true, z.Midnight(start), TimeOf(z, end))
    requires var day := z.DayOf(t);
      start <= day && (end.None? || day < end.value) && (day - start - 1) % r.skipInterval == 0
    ensures !ExceptionExcludes(z, r, kind, t)
    ensures Covers(z, r, kind, z.DayOf(t)) <==> z.Midnight(z.DayOf(t)) - z.Midnight(start) < DAY * (z.DayOf(t) - start)
  {
    hide KindSpan, Zone.Valid, Zone.DayOf, ExceptionExcludes, Covers;
    var day := z.DayOf(t);
    ExceptionTakesAway(z, r, kind, t, start, end);
    SkipCovers(z, r, kind, day, start, end);
    NextRemainder(day - start - 1, r.skipInterval);
  }

  // ----- a whole period -----

  ghost predicate IsSpanOf(z: Zone, r: DateRange, kind: nat, day: int, start: int, end: Option<int>) {
    KindSpan(z, r, kind, day) == TimeSpan(true, z.Midnight(start), TimeOf(z, end))
  }

  /** The exception has no skip interval, and on the day its dates fail or have a start. */
  ghost predicate Plain(z: Zone, r: DateRange, kind: nat, day: int) {
    r.skipInterval <= 1 && (!KindSpan(z, r, kind, day).ok || exists start, end :: IsSpanOf(z, r, kind, day, start, end))
  }

  ghost predicate NonEmpty(z: Zone, ranges: seq<TimeRange>, day: int) {
    forall tr :: tr in ranges ==> RangeStart(z, tr, day) < RangeEnd(z, tr, day)
  }

  /** All exceptions are plain and no range is empty that day. */
  ghost predicate PlainOn(z: Zone, tp: Timeperiod, day: int) {
    && NonEmpty(z, tp.days[WeekDay(day)], day)
    && forall kind: nat, r :: kind < DATERANGE_TYPES && r in tp.exceptions[kind] ==>
         Plain(z, r, kind, day) && NonEmpty(z, r.times, day)
  }

  /** An exception that covers the day of t has t in its ranges. */
  ghost predicate InCoveringException(z: Zone, tp: Timeperiod, t: int) {
    exists kind: nat, r :: kind < DATERANGE_TYPES && r in tp.exceptions[kind] && TakesAway(z, r, kind, t)
  }

  ghost predicate TakesAway(z: Zone, r: DateRange, kind: nat, t: int) {
    Covers(z, r, kind, z.DayOf(t)) && AnyInside(z, r.times, z.DayOf(t), t)
  }

  lemma PlainTakesAway(z: Zone, r: DateRange, kind: nat, t: int)
    requires z.Valid() && Plain(z, r, kind, z.DayOf(t))
    ensures ExceptionExcludes(z, r, kind, t) <==> TakesAway(z, r, kind, t)
  {
    hide KindSpan, Zone.Valid, Zone.DayOf, AnyInside;
    var day := z.DayOf(t);
    if KindSpan(z, r, kind, day).ok {
      var start, end :| IsSpanOf(z, r, kind, day, start, end);
      ExceptionTakesCoveredDays(z, r, kind, t, start, end);
    }
  }

  /** An excluded period takes away its weekly ranges and those of every exception that covers the day. */
  lemma ExclusionTakesAway(z: Zone, tp: Timeperiod, t: int)
    requires z.Valid() && PlainOn(z, tp, z.DayOf(t))
    ensures Excludes(z, tp, t) <==>
      AnyInside(z, tp.days[WeekDay(z.DayOf(t))], z.DayOf(t), t) || InCoveringException(z, tp, t)
  {
    hide ExceptionExcludes, TakesAway, Plain, Zone.Valid, Zone.DayOf, AnyInside;
    forall kind: nat, r | kind < DATERANGE_TYPES && r in tp.exceptions[kind]
      ensures ExceptionExcludes(z, r, kind, t) <==> TakesAway(z, r, kind, t)
    {
      PlainTakesAway(z, r, kind, t);
    }
  }

  lemma OffersAreInside(z: Zone, ranges: seq<TimeRange>, day: int, t: int)
    requires NonEmpty(z, ranges, day)
    ensures AnyOffers(z, ranges, day, t) <==> AnyInside(z, ranges, day, t)
  {
    forall tr | tr in ranges ensures Offers(z, tr, day, t) <==> Inside(z, tr, day, t) {
      NonEmptyRangeOffers(z, tr, day, t);
    }
  }

  /** On a day that no exception covers, an exclusion takes away exactly what the period offers. */
  lemma AgreeWithoutException(z: Zone, tp: Timeperiod, t: int)
    requires z.Valid() && PlainOn(z, tp, z.DayOf(t)) && OneExceptionPerKind(z, tp, z.DayOf(t))
    requires forall k :: 0 <= k < DATERANGE_TYPES ==> !CoversAny(z, tp.exceptions[k], k, z.DayOf(t))
    ensures Excludes(z, tp, t) <==> DayOffers(z, tp, z.DayOf(t), t)
  {
    hide AnyInside, AnyOffers, Zone.Valid, Zone.DayOf, Excludes, DayOffers, Covers;
    var day := z.DayOf(t);
    ExclusionTakesAway(z, tp, t);
    PrecedenceDecides(z, tp, day, t);
    OffersAreInside(z, tp.days[WeekDay(day)], day, t);
  }

  /** On a day that an exception decides, the two agree on an instant exactly if what the week or any covering
      exception has there lies in the ranges of the deciding one. */
  lemma AgreeWithException(z: Zone, tp: Timeperiod, t: int, kind: nat, r: DateRange)
    requires z.Valid() && PlainOn(z, tp, z.DayOf(t)) && OneExceptionPerKind(z, tp, z.DayOf(t))
    requires Decides(z, tp, z.DayOf(t), kind, r)
    ensures DayOffers(z, tp, z.DayOf(t), t) ==> Excludes(z, tp, t)
    ensures (Excludes(z, tp, t) <==> DayOffers(z, tp, z.DayOf(t), t)) <==>
      (AnyInside(z, tp.days[WeekDay(z.DayOf(t))], z.DayOf(t), t) || InCoveringException(z, tp, t) ==>
         AnyInside(z, r.times, z.DayOf(t), t))
  {
    hide AnyInside, AnyOffers, Zone.Valid, Zone.DayOf, Excludes, DayOffers, Covers;
    var day := z.DayOf(t);
    ExclusionTakesAway(z, tp, t);
    PrecedenceDecides(z, tp, day, t);
    OffersAreInside(z, r.times, day, t);
    assert AnyInside(z, r.times, day, t) ==> TakesAway(z, r, kind, t);
  }

  // ----- a period for which they differ -----

  const WHOLE_DAY := [TimeRange(0, DAY)]
  const MORNING := [TimeRange(8 * HOUR, 9 * HOUR)]

  /** The first of January 2020, one hour long. */
  function NewYear(): DateRange {
    DateRange(2020, 0, 1, 0, 0, 2020, 0, 1, 0, 0, 0, MORNING)
  }

  /** A period that is open all week, but on New Year's Day only from eight to nine: at ten that day it offers nothing,
      and still an exclusion of it takes ten o'clock away. */
  lemma ExceptionDoesNotOverride(tp: Timeperiod)
    requires tp.days == [WHOLE_DAY, WHOLE_DAY, WHOLE_DAY, WHOLE_DAY, WHOLE_DAY, WHOLE_DAY, WHOLE_DAY]
    requires tp.exceptions == [[NewYear()], [], [], [], []]
    ensures var day := MkDay(2020, 0, 1);
      var ten := DAY * day + 10 * HOUR;
      && FixedZone(0).Valid() && FixedZone(0).DayOf(ten) == day
      && Excludes(FixedZone(0), tp, ten) && !DayOffers(FixedZone(0), tp, day, ten)
  {
    hide MkDay, Zone.Valid, Zone.DayOf, CivilOf, Excludes, DayOffers, Covers, KindSpan;
    var z, day := FixedZone(0), MkDay(2020, 0, 1);
    var ten := DAY * day + 10 * HOUR;
    ZonesAreValid(0, 0);
    z.DayOfIs(ten, day);
    NewYearCovers(z, day);
    assert tp.exceptions[0] == [NewYear()] && tp.days[WeekDay(day)] == WHOLE_DAY;
    assert OneExceptionPerKind(z, tp, day);
    assert PlainOn(z, tp, day);
    assert Decides(z, tp, day, 0, NewYear());
    AgreeWithException(z, tp, ten, 0, NewYear());
    assert Inside(z, WHOLE_DAY[0], day, ten);
    ExclusionTakesAway(z, tp, ten);
  }

  lemma NewYearCovers(z: Zone, day: int)
    requires z.Valid() && day == MkDay(2020, 0, 1)
    ensures Covers(z, NewYear(), CALENDAR_DATE, day) && Plain(z, NewYear(), CALENDAR_DATE, day)
  {
    hide MkDay, Zone.Valid, Covers;
    CalendarDateCovers(z, NewYear(), day);
    z.AddRoundDaysIsCalendarDays(day, 1);
    assert IsSpanOf(z, NewYear(), CALENDAR_DATE, day, day, Some(day + 1));
  }
}
