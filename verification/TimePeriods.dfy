/** The search for the next instant a time period allows (src/timeperiod.cc, lines 705-1138). */
module TimePeriods {
  import opened Calendar
  import opened TimeZones
  import opened DateRanges

  type Week = w: seq<seq<TimeRange>> | |w| == 7 witness [[], [], [], [], [], [], []]
  type Exceptions = e: seq<seq<DateRange>> | |e| == DATERANGE_TYPES witness [[], [], [], [], []]

  class Timeperiod {
    const days: Week
    const exceptions: Exceptions
    /** The excluded periods; an entry whose name was never resolved is null. */
    var exclusions: seq<Timeperiod?>

    constructor (days: Week, exceptions: Exceptions)
      ensures this.days == days && this.exceptions == exceptions && exclusions == []
    {
      this.days, this.exceptions, exclusions := days, exceptions, [];
    }
  }

  const ONE_YEAR := 366 * 24 * 60 * 60

  // ----- what a period offers on a day -----

  ghost predicate CoversAny(z: Zone, list: seq<DateRange>, kind: nat, day: int) {
    exists r :: r in list && Covers(z, r, kind, day)
  }

  /** A list of exceptions offers t: some range covering the day does, and every covering range listed before
      it still has time left that day. */
  ghost predicate ListOffers(z: Zone, list: seq<DateRange>, kind: nat, day: int, t: int) {
    exists i :: 0 <= i < |list| && RangeOffers(z, list, kind, day, t, i)
  }

  ghost predicate RangeOffers(z: Zone, list: seq<DateRange>, kind: nat, day: int, t: int, i: int)
    requires 0 <= i < |list|
  {
    && Covers(z, list[i], kind, day) && AnyOffers(z, list[i].times, day, t)
    && forall j :: 0 <= j < i && Covers(z, list[j], kind, day) ==> TimeLeft(z, list[j].times, day, t)
  }

  /** The first kind of exception with a range covering the day decides; without one, the weekly ranges do. */
  ghost predicate OffersFrom(z: Zone, tp: Timeperiod, kind: nat, day: int, t: int)
    requires kind <= DATERANGE_TYPES
    decreases DATERANGE_TYPES - kind
  {
    if kind == DATERANGE_TYPES then AnyOffers(z, tp.days[WeekDay(day)], day, t)
    else if CoversAny(z, tp.exceptions[kind], kind, day) then ListOffers(z, tp.exceptions[kind], kind, day, t)
    else OffersFrom(z, tp, kind + 1, day, t)
  }

  ghost predicate DayOffers(z: Zone, tp: Timeperiod, day: int, t: int) {
    OffersFrom(z, tp, 0, day, t)
  }

  // ----- what an excluded period takes away -----

  predicate Inside(z: Zone, tr: TimeRange, day: int, t: int) {
    RangeStart(z, tr, day) <= t < RangeEnd(z, tr, day)
  }

  ghost predicate AnyInside(z: Zone, ranges: seq<TimeRange>, day: int, t: int) {
    exists tr :: tr in ranges && Inside(z, tr, day, t)
  }

  /** The midnight of the day an excluded period's exception is tried on, seen from the day of t. */
  ghost function ExceptionMidnight(z: Zone, r: DateRange, kind: nat, t: int): int
    requires z.Valid()
  {
    var day := z.DayOf(t);
    var span := RangeSpan(z, r, kind, day);
    if span.ok && (t < span.end || span.end == NO_TIME)
    then EarliestMidnight(z, day, span.start, span.end, r.skipInterval) else NO_TIME
  }

  ghost predicate ExceptionExcludes(z: Zone, r: DateRange, kind: nat, t: int)
    requires z.Valid()
  {
    var midnight := ExceptionMidnight(z, r, kind, t);
    midnight != NO_TIME && AnyInside(z, r.times, z.DayOf(midnight), t)
  }

  /** An excluded period without exclusions of its own takes away its weekly ranges and the ranges of every
      exception: here the exceptions add to the week, they do not override it. */
  ghost predicate Excludes(z: Zone, tp: Timeperiod, t: int)
    requires z.Valid()
  {
    || AnyInside(z, tp.days[WeekDay(z.DayOf(t))], z.DayOf(t), t)
    || exists kind: nat, r :: kind < DATERANGE_TYPES && r in tp.exceptions[kind] && ExceptionExcludes(z, r, kind, t)
  }

  ghost predicate AnyExcludes(z: Zone, exclusions: seq<Timeperiod?>, t: int)
    requires z.Valid()
  {
    exists e: Timeperiod :: e in exclusions && Excludes(z, e, t)
  }

  /** The period allows t: its day offers it and no excluded period takes it away. */
  ghost predicate Allows(z: Zone, tp: Timeperiod, exclusions: seq<Timeperiod?>, t: int)
    requires z.Valid()
  {
    DayOffers(z, tp, z.DayOf(t), t) && !AnyExcludes(z, exclusions, t)
  }

  // ----- the day's offer -----

  ghost predicate FirstListOffer(z: Zone, list: seq<DateRange>, kind: nat, day: int, t: int, r: int) {
    if r == NO_TIME then forall u :: u >= t ==> !ListOffers(z, list, kind, day, u)
    else r >= t && ListOffers(z, list, kind, day, r) && forall u :: t <= u < r ==> !ListOffers(z, list, kind, day, u)
  }

  ghost predicate CoversAndOffers(z: Zone, r: DateRange, kind: nat, day: int, t: int) {
    Covers(z, r, kind, day) && AnyOffers(z, r.times, day, t)
  }

  /** The ranges before k that cover the day all have time left, and r is the first instant one of them offers. */
  ghost predicate BrowsedRanges(z: Zone, list: seq<DateRange>, k: int, kind: nat, day: int, t: int, r: int)
    requires 0 <= k <= |list|
  {
    && (forall j :: 0 <= j < k && Covers(z, list[j], kind, day) ==> TimeLeft(z, list[j].times, day, t))
    && (r == NO_TIME ==> forall j :: 0 <= j < k ==> !Covers(z, list[j], kind, day))
    && (r != NO_TIME ==> r >= t && exists j :: 0 <= j < k && CoversAndOffers(z, list[j], kind, day, r))
    && (r != NO_TIME ==> forall j, u :: 0 <= j < k && Covers(z, list[j], kind, day) && t <= u < r ==>
                         !AnyOffers(z, list[j].times, day, u))
  }

  lemma BrowsedMeansFirst(z: Zone, list: seq<DateRange>, k: nat, kind: nat, day: int, t: int, r: int)
    requires k <= |list| && BrowsedRanges(z, list, k, kind, day, t, r)
    requires k < |list| ==> Covers(z, list[k], kind, day) && !TimeLeft(z, list[k].times, day, t)
    ensures FirstListOffer(z, list, kind, day, t, r)
    ensures CoversAny(z, list, kind, day) <==> r != NO_TIME || k < |list|
  {
    hide Covers, AnyOffers;
    forall u | u >= t && ListOffers(z, list, kind, day, u) ensures r != NO_TIME && u >= r {
      var i :| 0 <= i < |list| && RangeOffers(z, list, kind, day, u, i);
      if i >= k {
        assert false;
      }
    }
    if r != NO_TIME {
      var i :| 0 <= i < k && Covers(z, list[i], kind, day) && AnyOffers(z, list[i].times, day, r);
      forall j | 0 <= j < i && Covers(z, list[j], kind, day) ensures TimeLeft(z, list[j].times, day, r) {
        var u :| u >= t && AnyOffers(z, list[j].times, day, u);
        assert u >= r;
      }
      assert RangeOffers(z, list, kind, day, r, i);
    }
  }

  lemma BrowsedNothing(z: Zone, list: seq<DateRange>, kind: nat, day: int, t: int)
    ensures BrowsedRanges(z, list, 0, kind, day, t, NO_TIME)
  {
  }

  lemma BrowseOneMore(z: Zone, list: seq<DateRange>, k: nat, kind: nat, day: int, t: int, r: int, potential: int)
    requires t >= 0 && k < |list| && BrowsedRanges(z, list, k, kind, day, t, r)
    requires Covers(z, list[k], kind, day) ==>
      potential != NO_TIME && FirstOffer(z, list[k].times, day, t, potential)
    ensures var r' := if Covers(z, list[k], kind, day) && (r == NO_TIME || potential < r) then potential else r;
      BrowsedRanges(z, list, k + 1, kind, day, t, r')
  {
    hide Covers, AnyOffers;
  }

  /** The loop over the exceptions of one kind. */
  method OfferOfRanges(z: Zone, list: seq<DateRange>, kind: nat, ti: TimeInfo)
    returns (earliest: int, skipThisDay: bool)
    requires InfoFor(z, ti)
    ensures FirstListOffer(z, list, kind, ti.day, ti.preferredTime, earliest)
    ensures CoversAny(z, list, kind, ti.day) <==> earliest != NO_TIME || skipThisDay
  {
    hide Covers, AnyOffers, TimeLeft, FirstListOffer, BrowsedRanges, CoversAny, Zone.Valid, Zone.DayOf;
    earliest, skipThisDay := NO_TIME, false;
    BrowsedNothing(z, list, kind, ti.day, ti.preferredTime);
    var i := 0;
    while i < |list|
      invariant 0 <= i <= |list| && !skipThisDay
      invariant BrowsedRanges(z, list, i, kind, ti.day, ti.preferredTime, earliest)
    {
      var covers := RangeCoversToday(z, list[i], kind, ti);
      if covers {
        var potential := GetNextValidTimeInTimeranges(z, ti.preferredTime, list[i].times);
        if potential != NO_TIME {
          BrowseOneMore(z, list, i, kind, ti.day, ti.preferredTime, earliest, potential);
          if earliest == NO_TIME || potential < earliest {
            earliest := potential;
          }
          skipThisDay := false;
        } else {
          skipThisDay := true;
          break;
        }
      } else {
        BrowseOneMore(z, list, i, kind, ti.day, ti.preferredTime, earliest, NO_TIME);
      }
      i := i + 1;
    }
    BrowsedMeansFirst(z, list, i, kind, ti.day, ti.preferredTime, earliest);
  }

  /** The test that a range applies today. */
  method RangeCoversToday(z: Zone, r: DateRange, kind: nat, ti: TimeInfo) returns (covers: bool)
    requires InfoFor(z, ti)
    ensures covers <==> Covers(z, r, kind, ti.day)
  {
    var ok, start, end := DaterangeToTime(z, r, kind, ti);
    covers := ok && (start == NO_TIME || start <= ti.midnight) && (end == NO_TIME || ti.midnight < end);
  }

  ghost predicate FirstOfferFrom(z: Zone, tp: Timeperiod, kind: nat, day: int, t: int, r: int)
    requires kind <= DATERANGE_TYPES
  {
    if r == NO_TIME then forall u :: u >= t ==> !OffersFrom(z, tp, kind, day, u)
    else r >= t && OffersFrom(z, tp, kind, day, r) && forall u :: t <= u < r ==> !OffersFrom(z, tp, kind, day, u)
  }

  /** The first instant of the day, not before the preferred time, that exceptions and week offer. */
  method OfferOfDay(z: Zone, tp: Timeperiod, ti: TimeInfo) returns (earliest: int)
    requires InfoFor(z, ti)
    ensures FirstOfferFrom(z, tp, 0, ti.day, ti.preferredTime, earliest)
  {
    earliest := NO_TIME;
    var skipThisDay := false;
    var kind: nat := 0;
    while kind < DATERANGE_TYPES && earliest == NO_TIME && !skipThisDay
      invariant kind <= DATERANGE_TYPES
      invariant if earliest == NO_TIME && !skipThisDay
        then forall u :: OffersFrom(z, tp, 0, ti.day, u) <==> OffersFrom(z, tp, kind, ti.day, u)
        else FirstOfferFrom(z, tp, 0, ti.day, ti.preferredTime, earliest)
    {
      earliest, skipThisDay := OfferOfRanges(z, tp.exceptions[kind], kind, ti);
      kind := kind + 1;
    }
    if !skipThisDay {
      if earliest == NO_TIME {
        earliest := GetNextValidTimeInTimeranges(z, ti.preferredTime, tp.days[ti.wday]);
      }
    }
  }

  // ----- the end of an excluded stretch -----

  lemma InsideIsToday(z: Zone, tr: TimeRange, day: int, t: int)
    requires z.Valid() && Inside(z, tr, day, t)
    ensures z.DayOf(t) == day && RangeEnd(z, tr, day) <= z.Midnight(day + 1)
  {
    hide Zone.DayOf;
    assert z.ValidDay(day) && z.ValidDay(day + 1);
    z.DayOfIs(t, day);
  }

  /** end is the end of a range that contains t. */
  ghost predicate EndsRange(z: Zone, ranges: seq<TimeRange>, day: int, t: int, end: int) {
    exists tr :: tr in ranges && Inside(z, tr, day, t) && end == RangeEnd(z, tr, day)
  }

  /** The first range of the list that contains the preferred time ends there. */
  method FindRangeEnd(z: Zone, preferredTime: int, ranges: seq<TimeRange>, midnight: int) returns (end: int)
    requires preferredTime >= 0
    ensures end == NO_TIME ==> !AnyInside(z, ranges, z.DayOf(midnight), preferredTime)
    ensures end != NO_TIME ==> EndsRange(z, ranges, z.DayOf(midnight), preferredTime, end)
  {
    end := NO_TIME;
    var i := 0;
    while i < |ranges| && end == NO_TIME
      invariant 0 <= i <= |ranges|
      invariant end == NO_TIME ==> !AnyInside(z, ranges[..i], z.DayOf(midnight), preferredTime)
      invariant end != NO_TIME ==> EndsRange(z, ranges, z.DayOf(midnight), preferredTime, end)
    {
      var ok, rangeStart, rangeEnd := TimerangeToTime(z, ranges[i], midnight);
      if ok && preferredTime >= rangeStart && preferredTime < rangeEnd {
        end := rangeEnd;
      }
      assert ranges[..i + 1] == ranges[..i] + [ranges[i]];
      i := i + 1;
    }
    assert end == NO_TIME ==> ranges[..i] == ranges;
  }

  /** Every instant from t up to r is excluded by the exception. */
  lemma ExceptionExcludesOn(z: Zone, r: DateRange, kind: nat, tr: TimeRange, t: int, u: int)
    requires z.Valid() && t >= 0 && tr in r.times && ExceptionMidnight(z, r, kind, t) != NO_TIME
    requires Inside(z, tr, z.DayOf(ExceptionMidnight(z, r, kind, t)), t)
    requires t <= u < RangeEnd(z, tr, z.DayOf(ExceptionMidnight(z, r, kind, t)))
    ensures ExceptionExcludes(z, r, kind, u)
  {
    hide KindSpan, Zone.Valid, Zone.DayOf, EarliestMidnight;
    var day := z.DayOf(t);
    var exceptionDay := z.DayOf(ExceptionMidnight(z, r, kind, t));
    InsideIsToday(z, tr, exceptionDay, t);
    InsideIsToday(z, tr, exceptionDay, u);
    var _, last := SpanEnds(z, r, kind, day);
    z.BeforeMidnight(t, last);
    z.BeforeMidnight(u, last);
    assert ExceptionMidnight(z, r, kind, u) == ExceptionMidnight(z, r, kind, t);
  }

  /** Everything from t up to r is excluded. */
  ghost predicate ExcludedUpTo(z: Zone, tp: Timeperiod, t: int, r: int)
    requires z.Valid()
  {
    r > t && forall u :: t <= u < r ==> Excludes(z, tp, u)
  }

  method EndOfException(z: Zone, tp: Timeperiod, r: DateRange, kind: nat, ti: TimeInfo) returns (end: int)
    requires InfoFor(z, ti) && kind < DATERANGE_TYPES && r in tp.exceptions[kind]
    ensures end == NO_TIME ==> !ExceptionExcludes(z, r, kind, ti.preferredTime)
    ensures end != NO_TIME ==> ExcludedUpTo(z, tp, ti.preferredTime, end)
  {
    hide RangeSpan, Zone.Valid, Zone.DayOf, EarliestMidnight;
    end := NO_TIME;
    var ok, rangeStart, rangeEnd := DaterangeToTime(z, r, kind, ti);
    if ok && (ti.preferredTime < rangeEnd || rangeEnd == NO_TIME) {
      var earliestMidnight := EarliestMidnightInDaterange(z, ti.preferredTime, r, rangeStart, rangeEnd);
      if earliestMidnight != NO_TIME {
        end := FindRangeEnd(z, ti.preferredTime, r.times, earliestMidnight);
        if end != NO_TIME {
          ghost var tr :| tr in r.times && Inside(z, tr, z.DayOf(earliestMidnight), ti.preferredTime)
            && end == RangeEnd(z, tr, z.DayOf(earliestMidnight));
          forall u | ti.preferredTime <= u < end ensures Excludes(z, tp, u) {
            ExceptionExcludesOn(z, r, kind, tr, ti.preferredTime, u);
          }
        }
      }
    }
  }

  ghost predicate NoExceptionBefore(z: Zone, tp: Timeperiod, kind: nat, t: int)
    requires z.Valid() && kind <= DATERANGE_TYPES
  {
    forall k: nat, r :: k < kind && r in tp.exceptions[k] ==> !ExceptionExcludes(z, r, k, t)
  }

  /** The loops over all exceptions of the excluded period. */
  method EndOfExceptions(z: Zone, tp: Timeperiod, ti: TimeInfo) returns (earliest: int)
    requires InfoFor(z, ti)
    ensures earliest == NO_TIME ==> NoExceptionBefore(z, tp, DATERANGE_TYPES, ti.preferredTime)
    ensures earliest != NO_TIME ==> ExcludedUpTo(z, tp, ti.preferredTime, earliest)
  {
    hide ExceptionExcludes, Zone.Valid, Excludes, ExcludedUpTo, Zone.DayOf;
    earliest := NO_TIME;
    var kind: nat := 0;
    while kind < DATERANGE_TYPES && earliest == NO_TIME
      invariant kind <= DATERANGE_TYPES
      invariant earliest == NO_TIME ==> NoExceptionBefore(z, tp, kind, ti.preferredTime)
      invariant earliest != NO_TIME ==> ExcludedUpTo(z, tp, ti.preferredTime, earliest)
    {
      var list := tp.exceptions[kind];
      var i := 0;
      while i < |list| && earliest == NO_TIME
        invariant 0 <= i <= |list|
        invariant earliest == NO_TIME ==>
          forall j :: 0 <= j < i ==> !ExceptionExcludes(z, list[j], kind, ti.preferredTime)
        invariant earliest != NO_TIME ==> ExcludedUpTo(z, tp, ti.preferredTime, earliest)
      {
        earliest := EndOfException(z, tp, list[i], kind, ti);
        i := i + 1;
      }
      kind := kind + 1;
    }
  }

  /** A weekly range that contains t is one of today's. */
  lemma WeekExcludes(z: Zone, tp: Timeperiod, weekday: DayOfWeek, day: int, t: int, end: int)
    requires z.Valid() && EndsRange(z, tp.days[weekday], day, t, end)
    ensures day == z.DayOf(t) && (weekday == WeekDay(day) ==> ExcludedUpTo(z, tp, t, end))
  {
    var tr :| tr in tp.days[weekday] && Inside(z, tr, day, t) && end == RangeEnd(z, tr, day);
    InsideIsToday(z, tr, day, t);
    if weekday == WeekDay(day) {
      forall u | t <= u < end ensures Excludes(z, tp, u) {
        InsideIsToday(z, tr, day, u);
      }
    }
  }

  /** The weekly ranges of today and the seven days after; only today's can contain the preferred time. */
  method EndOfWeeklyRange(z: Zone, tp: Timeperiod, ti: TimeInfo) returns (earliest: int)
    requires InfoFor(z, ti)
    ensures earliest == NO_TIME ==> !AnyInside(z, tp.days[ti.wday], ti.day, ti.preferredTime)
    ensures earliest != NO_TIME ==> ExcludedUpTo(z, tp, ti.preferredTime, earliest)
  {
    hide Zone.Valid, Zone.DayOf, Zone.AddRoundDays, CivilOf, WeekDay, AnyInside, ExcludedUpTo, EndsRange;
    earliest := NO_TIME;
    var weekday, daysIntoTheFuture := ti.wday as int, 0;
    while daysIntoTheFuture <= 7 && earliest == NO_TIME
      invariant 0 <= daysIntoTheFuture <= 8
      invariant 0 <= weekday <= 7 && (daysIntoTheFuture == 0 ==> weekday == ti.wday)
      invariant earliest == NO_TIME && daysIntoTheFuture > 0 ==>
        !AnyInside(z, tp.days[ti.wday], ti.day, ti.preferredTime)
      invariant earliest != NO_TIME ==> ExcludedUpTo(z, tp, ti.preferredTime, earliest)
      decreases 8 - daysIntoTheFuture
    {
      if weekday >= 7 {
        weekday := weekday - 7;
      }
      z.AddRoundDaysIsCalendarDays(ti.day, daysIntoTheFuture);
      z.MidnightIsMidnight(ti.day + daysIntoTheFuture);
      var dayStart := AddRoundDaysToMidnight(z, ti.midnight, daysIntoTheFuture * 24 * 60 * 60);
      earliest := FindRangeEnd(z, ti.preferredTime, tp.days[weekday], dayStart);
      if earliest != NO_TIME {
        WeekExcludes(z, tp, weekday, z.DayOf(dayStart), ti.preferredTime, earliest);
      }
      weekday, daysIntoTheFuture := weekday + 1, daysIntoTheFuture + 1;
    }
  }

  // ----- the two searches -----

  /** Every resolved exclusion of a period in the set belongs to the set. */
  ghost predicate ClosedUnderExclusion(all: set<Timeperiod>)
    reads all
  {
    forall p: Timeperiod, e: Timeperiod :: p in all && e in p.exclusions ==> e in all
  }

  /** The periods whose exclusion list is not currently taken away. */
  ghost function Active(all: set<Timeperiod>): set<Timeperiod>
    reads all
  {
    set p | p in all && p.exclusions != []
  }

  /** Every excluded period is the period itself or has no exclusions of its own. */
  ghost predicate FlatExclusions(tp: Timeperiod, all: set<Timeperiod>)
    requires tp in all
    reads all
  {
    forall e: Timeperiod :: e in tp.exclusions ==> e in all && (e == tp || e.exclusions == [])
  }

  /** No range of the list starts at 24:00, which would be an instant of the next day. */
  predicate StartsInDay(ranges: seq<TimeRange>) {
    forall tr :: tr in ranges ==> tr.rangeStart < DAY
  }

  ghost predicate RangesStartInDay(tp: Timeperiod) {
    && (forall w: DayOfWeek :: StartsInDay(tp.days[w]))
    && (forall k: nat, r :: k < DATERANGE_TYPES && r in tp.exceptions[k] ==> StartsInDay(r.times))
  }

  /** r is how far the exclusions reach from t on: not at all, or past instants that are all excluded. */
  ghost predicate ExclusionsReach(z: Zone, exclusions: seq<Timeperiod?>, t: int, r: int)
    requires z.Valid()
  {
    if AnyExcludes(z, exclusions, t) then r > t && forall u :: t <= u < r ==> AnyExcludes(z, exclusions, u)
    else r == NO_TIME || r == t
  }

  ghost predicate ExclusionEnds(z: Zone, tp: Timeperiod, t: int, r: int)
    requires z.Valid()
  {
    if Excludes(z, tp, t) then ExcludedUpTo(z, tp, t, r) else r == t
  }

  /** Valid times of the excluded periods, with the exclusion list of tp taken away meanwhile. */
  method NextExclusion(z: Zone, preferredTime: int, tp: Timeperiod, ghost all: set<Timeperiod>) returns (next: int)
    requires z.Valid() && preferredTime >= 0 && tp in all && ClosedUnderExclusion(all)
    modifies all`exclusions
    ensures forall p :: p in all ==> p.exclusions == old(p.exclusions)
    ensures next == NO_TIME || next >= preferredTime
    ensures tp.exclusions == [] ==> next == NO_TIME
    decreases Active(all), 1
  {
    next := NO_TIME;
    var firstExclusion := tp.exclusions;
    tp.exclusions := [];
    var i := 0;
    while i < |firstExclusion|
      invariant 0 <= i <= |firstExclusion|
      invariant forall p :: p in all ==> p.exclusions == if p == tp then [] else old(p.exclusions)
      invariant next == NO_TIME || (next >= preferredTime && i > 0)
    {
      assert tp in old(Active(all)) && tp !in Active(all);
      var valid := GetNextValidTimePerTimeperiod(z, preferredTime, firstExclusion[i], all);
      if valid != NO_TIME && (next == NO_TIME || valid < next) {
        next := valid;
      }
      i := i + 1;
    }
    tp.exclusions := firstExclusion;
  }

  /** The next time the period does not cover, used to find the end of an exclusion. The loop never runs twice. */
  method GetNextInvalidTimePerTimeperiod(z: Zone, time: int, tperiod: Timeperiod?, ghost all: set<Timeperiod>)
    returns (invalid: int)
    requires z.Valid() && time >= 0 && ClosedUnderExclusion(all) && (tperiod != null ==> tperiod in all)
    modifies all`exclusions
    ensures forall p :: p in all ==> p.exclusions == old(p.exclusions)
    ensures invalid >= time
    ensures tperiod == null ==> invalid == time
    ensures tperiod != null && tperiod.exclusions == [] ==> ExclusionEnds(z, tperiod, time, invalid)
    decreases Active(all), 2
  {
    if tperiod == null {
      return time;
    }
    var preferredTime, earliest := time, time;
    var inOneYear := preferredTime + ONE_YEAR;
    while earliest != NO_TIME && preferredTime < inOneYear
      invariant forall p :: p in all ==> p.exclusions == old(p.exclusions)
      invariant earliest != NO_TIME ==> preferredTime == earliest == time
      invariant preferredTime >= time
      invariant earliest == NO_TIME && tperiod.exclusions == [] ==> ExclusionEnds(z, tperiod, time, preferredTime)
      decreases earliest != NO_TIME
    {
      preferredTime := earliest;
      var ti := TimeInfoOf(z, preferredTime);
      earliest := EndOfExceptions(z, tperiod, ti);
      if earliest == NO_TIME {
        earliest := EndOfWeeklyRange(z, tperiod, ti);
      }
      var nextExclusion := NextExclusion(z, preferredTime, tperiod, all);
      var tomorrow := AddRoundDaysToMidnight(z, ti.midnight, 24 * 60 * 60);
      if nextExclusion != NO_TIME && nextExclusion < tomorrow && (earliest == NO_TIME || nextExclusion <= earliest) {
        earliest := NO_TIME;
        preferredTime := nextExclusion;
        break;
      }
      if earliest != NO_TIME {
        preferredTime := earliest;
        earliest := NO_TIME;
      }
    }
    invalid := if earliest != NO_TIME then time else preferredTime;
  }

  /** How far the exclusions reach from an offered time, with the exclusion list of tp taken away meanwhile. */
  method MaxInvalid(z: Zone, earliest: int, tp: Timeperiod, ghost all: set<Timeperiod>) returns (maxInvalid: int)
    requires z.Valid() && earliest >= 0 && tp in all && ClosedUnderExclusion(all)
    modifies all`exclusions
    ensures forall p :: p in all ==> p.exclusions == old(p.exclusions)
    ensures maxInvalid == NO_TIME || maxInvalid >= earliest
    ensures FlatExclusions(tp, all) ==> ExclusionsReach(z, tp.exclusions, earliest, maxInvalid)
    ensures tp.exclusions == [] ==> maxInvalid == NO_TIME
    decreases Active(all), 1
  {
    hide Zone.Valid, ExclusionsReach, ExclusionEnds;
    maxInvalid := NO_TIME;
    var firstExclusion := tp.exclusions;
    NoExclusionReaches(z, firstExclusion, earliest);
    tp.exclusions := [];
    ghost var flat := old(FlatExclusions(tp, all));
    var i := 0;
    while i < |firstExclusion|
      invariant 0 <= i <= |firstExclusion|
      invariant forall p :: p in all ==> p.exclusions == if p == tp then [] else old(p.exclusions)
      invariant maxInvalid == NO_TIME || (maxInvalid >= earliest && i > 0)
      invariant flat ==> ExclusionsReach(z, firstExclusion[..i], earliest, maxInvalid)
    {
      assert tp in old(Active(all)) && tp !in Active(all);
      var invalid := GetNextInvalidTimePerTimeperiod(z, earliest, firstExclusion[i], all);
      if flat {
        OneMoreExclusion(z, firstExclusion, i, earliest, maxInvalid, invalid);
      }
      if invalid != NO_TIME && (maxInvalid == NO_TIME || invalid > maxInvalid) {
        maxInvalid := invalid;
      }
      i := i + 1;
    }
    assert firstExclusion[..i] == firstExclusion;
    tp.exclusions := firstExclusion;
  }

  lemma NoExclusionReaches(z: Zone, exclusions: seq<Timeperiod?>, t: int)
    requires z.Valid()
    ensures ExclusionsReach(z, exclusions[..0], t, NO_TIME)
  {
    assert !AnyExcludes(z, exclusions[..0], t);
  }

  lemma OneMoreExclusion(z: Zone, exclusions: seq<Timeperiod?>, i: nat, t: int, before: int, invalid: int)
    requires z.Valid() && t >= 0 && i < |exclusions| && invalid >= t
    requires ExclusionsReach(z, exclusions[..i], t, before)
    requires if exclusions[i] == null then invalid == t else ExclusionEnds(z, exclusions[i], t, invalid)
    ensures ExclusionsReach(z, exclusions[..i + 1], t,
                            if before == NO_TIME || invalid > before then invalid else before)
  {
    hide Excludes, Zone.Valid, AnyExcludes;
    var after := if before == NO_TIME || invalid > before then invalid else before;
    var longer := exclusions[..i + 1];
    OneMoreExcludes(z, exclusions, i, t);
    forall u | t <= u < after && after > t ensures AnyExcludes(z, longer, u) {
      OneMoreExcludes(z, exclusions, i, u);
    }
  }

  lemma OneMoreExcludes(z: Zone, exclusions: seq<Timeperiod?>, i: nat, t: int)
    requires z.Valid() && i < |exclusions|
    ensures AnyExcludes(z, exclusions[..i + 1], t) <==>
            AnyExcludes(z, exclusions[..i], t) || (exclusions[i] != null && Excludes(z, exclusions[i], t))
  {
    hide Excludes, Zone.Valid;
    assert exclusions[..i + 1] == exclusions[..i] + [exclusions[i]];
    if AnyExcludes(z, exclusions[..i], t) {
      var e: Timeperiod :| e in exclusions[..i] && Excludes(z, e, t);
      assert e in exclusions[..i + 1];
    } else if exclusions[i] != null && Excludes(z, exclusions[i], t) {
      var e: Timeperiod := exclusions[i];
      assert e in exclusions[..i + 1];
    }
  }

  /** r is the first allowed instant from t on; or r is t itself, because none lies within 366 days. */
  ghost predicate FirstAllowed(z: Zone, tp: Timeperiod, exclusions: seq<Timeperiod?>, t: int, r: int)
    requires z.Valid()
  {
    || (r >= t && Allows(z, tp, exclusions, r) && NoneAllowed(z, tp, exclusions, t, r))
    || (r == t && NoneAllowed(z, tp, exclusions, t, t + ONE_YEAR))
  }

  ghost predicate NoneAllowed(z: Zone, tp: Timeperiod, exclusions: seq<Timeperiod?>, from: int, to: int)
    requires z.Valid()
  {
    forall u :: from <= u < to ==> !Allows(z, tp, exclusions, u)
  }

  /** One round of the search: the offer of the day, unless an exclusion takes it away, and where to go on otherwise. */
  method SearchDay(z: Zone, time: int, tperiod: Timeperiod, ghost all: set<Timeperiod>)
    returns (earliest: int, preferredTime: int)
    requires z.Valid() && time >= 0 && ClosedUnderExclusion(all) && tperiod in all
    modifies all`exclusions
    ensures forall p :: p in all ==> p.exclusions == old(p.exclusions)
    ensures preferredTime > time && (earliest == NO_TIME || earliest >= time)
    ensures FlatExclusions(tperiod, all) && RangesStartInDay(tperiod) ==>
      if earliest == NO_TIME then NoneAllowed(z, tperiod, tperiod.exclusions, time, preferredTime)
      else Allows(z, tperiod, tperiod.exclusions, earliest) && earliest < z.Midnight(z.DayOf(time) + 1)
           && NoneAllowed(z, tperiod, tperiod.exclusions, time, earliest)
    ensures tperiod.exclusions == [] ==> z.IsMidnight(preferredTime)
    decreases Active(all), 2
  {
    hide Zone.Valid, Zone.DayOf, Zone.IsMidnight, Zone.AddRoundDays, FirstOfferFrom, Allows, CivilOf;
    ghost var exclusions := tperiod.exclusions;
    var ti := TimeInfoOf(z, time);
    var offer := OfferOfDay(z, tperiod, ti);
    OfferIsLate(z, tperiod, ti, offer);
    var maxInvalid := NO_TIME;
    earliest := offer;
    var skipped := false;
    if earliest != NO_TIME {
      maxInvalid := MaxInvalid(z, earliest, tperiod, all);
      if maxInvalid != NO_TIME && maxInvalid != earliest {
        earliest := NO_TIME;
        preferredTime := maxInvalid;
        skipped := true;
      }
    }
    if !skipped {
      preferredTime := AddRoundDaysToMidnight(z, ti.midnight, 24 * 60 * 60);
    }
    NextDay(z, ti);
    z.MidnightIsMidnight(ti.day + 1);
    if FlatExclusions(tperiod, all) && RangesStartInDay(tperiod) {
      DaySearched(z, tperiod, exclusions, ti, offer, maxInvalid);
      OfferIsOfDay(z, tperiod, ti, offer);
    }
  }

  lemma OfferIsLate(z: Zone, tp: Timeperiod, ti: TimeInfo, offer: int)
    requires FirstOfferFrom(z, tp, 0, ti.day, ti.preferredTime, offer)
    ensures offer == NO_TIME || offer >= ti.preferredTime
  {
  }

  lemma OfferIsOfDay(z: Zone, tp: Timeperiod, ti: TimeInfo, offer: int)
    requires InfoFor(z, ti) && RangesStartInDay(tp)
    requires FirstOfferFrom(z, tp, 0, ti.day, ti.preferredTime, offer)
    ensures offer != NO_TIME ==> offer < z.Midnight(z.DayOf(ti.preferredTime) + 1)
  {
    hide Zone.Valid, Zone.DayOf, OffersFrom;
    if offer != NO_TIME {
      OfferIsToday(z, tp, 0, ti.day, offer);
      z.DayOfBounds(offer);
    }
  }

  /** The next valid time of a period, day by day through the coming year. */
  method GetNextValidTimePerTimeperiod(z: Zone, time: int, tperiod: Timeperiod?, ghost all: set<Timeperiod>)
    returns (valid: int)
    requires z.Valid() && time >= 0 && ClosedUnderExclusion(all) && (tperiod != null ==> tperiod in all)
    modifies all`exclusions
    ensures forall p :: p in all ==> p.exclusions == old(p.exclusions)
    ensures valid >= time
    ensures tperiod == null ==> valid == time
    ensures tperiod != null && FlatExclusions(tperiod, all) && RangesStartInDay(tperiod) ==>
      FirstAllowed(z, tperiod, tperiod.exclusions, time, valid) && (valid == time || valid < SearchEnd(z, time))
    ensures tperiod != null && tperiod.exclusions == [] && RangesStartInDay(tperiod) ==> Found(z, tperiod, time, valid)
    decreases Active(all), 3
  {
    if tperiod == null {
      return time;
    }
    hide Zone.Valid, Zone.DayOf, Zone.IsMidnight, Zone.AddRoundDays, FirstOfferFrom, Allows, CivilOf;
    ghost var exclusions := tperiod.exclusions;
    ghost var simple := FlatExclusions(tperiod, all) && RangesStartInDay(tperiod);
    var earliest := NO_TIME;
    var preferredTime := time;
    var inOneYear := preferredTime + ONE_YEAR;
    while earliest == NO_TIME && preferredTime < inOneYear
      invariant forall p :: p in all ==> p.exclusions == old(p.exclusions)
      invariant preferredTime >= time
      invariant earliest != NO_TIME ==> time <= earliest
      invariant simple && earliest == NO_TIME ==> NoneAllowed(z, tperiod, exclusions, time, preferredTime)
      invariant simple && earliest != NO_TIME ==>
        Allows(z, tperiod, exclusions, earliest) && NoneAllowed(z, tperiod, exclusions, time, earliest)
      invariant simple && earliest != NO_TIME ==> earliest < SearchEnd(z, time)
      invariant exclusions == [] ==> preferredTime == time || z.IsMidnight(preferredTime)
      decreases earliest == NO_TIME, inOneYear - preferredTime
    {
      ghost var before := preferredTime;
      earliest, preferredTime := SearchDay(z, preferredTime, tperiod, all);
      BeforeSearchEnd(z, before, time);
    }
    if earliest == NO_TIME && exclusions == [] {
      SearchIsOver(z, time, preferredTime);
    }
    valid := if earliest == NO_TIME then time else earliest;
  }

  /** What the search finds in a period without exclusions: the first allowed instant up to the end of its last day, or
      else the instant it was asked for. */
  ghost predicate Found(z: Zone, tp: Timeperiod, t: int, r: int)
    requires z.Valid()
  {
    if NoneAllowed(z, tp, [], t, SearchEnd(z, t)) then r == t
    else t <= r < SearchEnd(z, t) && Allows(z, tp, [], r) && NoneAllowed(z, tp, [], t, r)
  }

  lemma SearchIsOver(z: Zone, time: int, preferredTime: int)
    requires z.Valid() && preferredTime >= time + ONE_YEAR && z.IsMidnight(preferredTime)
    ensures SearchEnd(z, time) <= preferredTime
  {
    var last := z.DayOf(time + ONE_YEAR - 1);
    z.BeforeMidnight(time + ONE_YEAR - 1, z.DayOf(preferredTime));
    z.MidnightsIncrease(z.DayOf(preferredTime), last + 1);
  }

  /** The end of the last day the search looks at: every day that begins within a year is looked at as a whole. */
  function SearchEnd(z: Zone, t: int): int
    requires z.Valid()
  {
    z.Midnight(z.DayOf(t + ONE_YEAR - 1) + 1)
  }

  /** The days looked at end by then. */
  lemma BeforeSearchEnd(z: Zone, t: int, time: int)
    requires z.Valid()
    ensures t < time + ONE_YEAR ==> z.Midnight(z.DayOf(t) + 1) <= SearchEnd(z, time)
  {
    var last := z.DayOf(time + ONE_YEAR - 1);
    z.DayOfBounds(time + ONE_YEAR - 1);
    if t < time + ONE_YEAR {
      z.BeforeMidnight(t, last + 1);
      z.MidnightsIncrease(last + 1, z.DayOf(t) + 1);
    }
  }

  lemma NextDay(z: Zone, ti: TimeInfo)
    requires InfoFor(z, ti)
    ensures z.AddRoundDays(ti.midnight, DAY) == z.Midnight(ti.day + 1) > ti.preferredTime
  {
    z.AddRoundDaysIsCalendarDays(ti.day, 1);
    z.DayOfBounds(ti.preferredTime);
  }

  /** One day of the search: nothing is allowed before the offer, and nothing up to where an exclusion of the
      offer reaches; without an offer, nothing for the rest of the day. */
  lemma DaySearched(z: Zone, tp: Timeperiod, exclusions: seq<Timeperiod?>, ti: TimeInfo, offer: int, maxInvalid: int)
    requires InfoFor(z, ti) && RangesStartInDay(tp)
    requires FirstOfferFrom(z, tp, 0, ti.day, ti.preferredTime, offer)
    requires offer != NO_TIME ==> ExclusionsReach(z, exclusions, offer, maxInvalid)
    ensures offer == NO_TIME ==> NoneAllowed(z, tp, exclusions, ti.preferredTime, z.Midnight(ti.day + 1))
    ensures offer != NO_TIME && maxInvalid != NO_TIME && maxInvalid != offer ==>
      maxInvalid > offer && NoneAllowed(z, tp, exclusions, ti.preferredTime, maxInvalid)
    ensures offer != NO_TIME && (maxInvalid == NO_TIME || maxInvalid == offer) ==>
      Allows(z, tp, exclusions, offer) && NoneAllowed(z, tp, exclusions, ti.preferredTime, offer)
  {
    hide Zone.Valid, Zone.DayOf, CivilOf, WeekDay, Excludes, OffersFrom;
    z.DayOfBounds(ti.preferredTime);
    if offer != NO_TIME {
      OfferIsToday(z, tp, 0, ti.day, offer);
      z.DayOfBounds(offer);
    }
    var rest := if offer == NO_TIME then z.Midnight(ti.day + 1) else offer;
    forall u | ti.preferredTime <= u < rest ensures !Allows(z, tp, exclusions, u) {
      z.DayOfIs(u, ti.day);
    }
  }

  /** What a day offers lies on that day. */
  lemma OfferIsToday(z: Zone, tp: Timeperiod, kind: nat, day: int, t: int)
    requires z.Valid() && kind <= DATERANGE_TYPES && RangesStartInDay(tp) && OffersFrom(z, tp, kind, day, t)
    ensures z.DayOf(t) == day
    decreases DATERANGE_TYPES - kind
  {
    hide Covers, Zone.DayOf;
    if kind == DATERANGE_TYPES {
      var tr :| tr in tp.days[WeekDay(day)] && Offers(z, tr, day, t);
      RangeOfferIsToday(z, tr, day, t);
    } else if CoversAny(z, tp.exceptions[kind], kind, day) {
      var list := tp.exceptions[kind];
      var i :| 0 <= i < |list| && RangeOffers(z, list, kind, day, t, i);
      var tr :| tr in list[i].times && Offers(z, tr, day, t);
      assert list[i] in list;
      RangeOfferIsToday(z, tr, day, t);
    } else {
      OfferIsToday(z, tp, kind + 1, day, t);
    }
  }

  lemma RangeOfferIsToday(z: Zone, tr: TimeRange, day: int, t: int)
    requires z.Valid() && tr.rangeStart < DAY && Offers(z, tr, day, t)
    ensures z.DayOf(t) == day
  {
    hide Zone.DayOf;
    assert z.ValidDay(day) && z.ValidDay(day + 1);
    z.DayOfIs(t, day);
  }

  // ----- a period that is only a week -----

  ghost predicate WholeMinutes(ranges: seq<TimeRange>) {
    forall tr :: tr in ranges ==> tr.rangeStart / 60 < tr.rangeEnd / 60
  }

  /** The period has no exceptions and no exclusions, and none of its ranges is shorter than a minute. */
  ghost predicate IsWeekly(tp: Timeperiod)
    reads tp
  {
    && tp.exclusions == [] && tp.exceptions == [[], [], [], [], []]
    && forall w: DayOfWeek :: WholeMinutes(tp.days[w])
  }

  /** The minute of the local day lies in a range of its weekday, the end of which does not belong to it. */
  ghost predicate OpenAt(tp: Timeperiod, local: int) {
    exists tr :: tr in tp.days[WeekDay(local / DAY)] && InMinutes(tr, local % DAY)
  }

  predicate InMinutes(tr: TimeRange, second: int) {
    tr.rangeStart / 60 <= second / 60 < tr.rangeEnd / 60
  }

  lemma InsideIsInMinutes(z: Zone, tr: TimeRange, t: int)
    requires z.Fixed()
    ensures var local := t - z.base; Inside(z, tr, local / DAY, t) <==> InMinutes(tr, local % DAY)
  {
    var day := (t - z.base) / DAY;
    RangesKeepMinutes(z, tr, day);
    var start, end := tr.rangeStart - tr.rangeStart % 60, tr.rangeEnd - tr.rangeEnd % 60;
    assert z.at(day, start) == z.base + DAY * day + start && z.at(day, end) == z.base + DAY * day + end;
  }

  lemma FixedDays(z: Zone, t: int)
    requires z.Fixed()
    ensures z.DayOf(t) == (t - z.base) / DAY
  {
    var day := (t - z.base) / DAY;
    assert z.at(day, 0) == z.base + DAY * day && z.at(day + 1, 0) == z.base + DAY * (day + 1);
  }

  /** Where the clock is never changed such a period allows exactly these times. */
  lemma WeeklyPeriodAllows(z: Zone, tp: Timeperiod, t: int)
    requires z.Valid() && z.Fixed() && IsWeekly(tp)
    ensures RangesStartInDay(tp) && (Allows(z, tp, [], t) <==> OpenAt(tp, t - z.base))
  {
    hide Zone.Valid, Zone.Fixed, Zone.DayOf, Offers, InMinutes, WeekDay, Inside;
    var day := (t - z.base) / DAY;
    FixedDays(z, t);
    assert OneExceptionPerKind(z, tp, day);
    PrecedenceDecides(z, tp, day, t);
    assert WholeMinutes(tp.days[WeekDay(day)]);
    forall tr | tr in tp.days[WeekDay(day)] ensures Offers(z, tr, day, t) <==> InMinutes(tr, (t - z.base) % DAY) {
      LastsAMinute(z, tr, day);
      NonEmptyRangeOffers(z, tr, day, t);
      InsideIsInMinutes(z, tr, t);
    }
  }

  lemma LastsAMinute(z: Zone, tr: TimeRange, day: int)
    requires z.Fixed() && tr.rangeStart / 60 < tr.rangeEnd / 60
    ensures RangeStart(z, tr, day) < RangeEnd(z, tr, day)
  {
    RangesKeepMinutes(z, tr, day);
  }

  /** A week with any range is open within eight days. */
  lemma OpenWithinAWeek(tp: Timeperiod, w: DayOfWeek, tr: TimeRange, local: int) returns (later: int)
    requires tr in tp.days[w] && tr.rangeStart / 60 < tr.rangeEnd / 60
    ensures local <= later < local + 8 * DAY && OpenAt(tp, later)
  {
    var today := local / DAY;
    var day := today + 1 + (w - WeekDay(today + 1)) % 7;
    assert WeekDay(day) == w;
    later := DAY * day + tr.rangeStart;
    assert later / DAY == day && later % DAY == tr.rangeStart;
  }

  /** So within the year the search looks at such a period allows nothing exactly if it has no ranges. */
  lemma WeeklyPeriodIsEmpty(z: Zone, tp: Timeperiod, t: int)
    requires z.Valid() && z.Fixed() && IsWeekly(tp)
    ensures NoneAllowed(z, tp, [], t, SearchEnd(z, t)) <==> tp.days == [[], [], [], [], [], [], []]
  {
    hide Zone.Valid, Zone.Fixed, Zone.DayOf, OpenAt, Allows, WeekDay;
    if tp.days == [[], [], [], [], [], [], []] {
      EmptyPeriodAllowsNothing(z, tp, t, SearchEnd(z, t));
    } else {
      var w: DayOfWeek :| tp.days[w] != [];
      assert WholeMinutes(tp.days[w]);
      var later := OpenWithinAWeek(tp, w, tp.days[w][0], t - z.base);
      WeeklyPeriodAllows(z, tp, later + z.base);
      YearIsSearched(z, t);
    }
  }

  lemma YearIsSearched(z: Zone, t: int)
    requires z.Valid()
    ensures SearchEnd(z, t) == z.Midnight(z.DayOf(t + 366 * DAY - 1) + 1) >= t + 366 * DAY
  {
    z.DayOfBounds(t + ONE_YEAR - 1);
  }

  /** check_time_against_period: OK for an allowed instant; for any other exactly if the search comes back empty-handed.
      It finds every instant of the coming year, and none beyond the day on which that year ends. */
  method CheckTimeAgainstPeriod(z: Zone, testTime: int, tperiod: Timeperiod?, ghost all: set<Timeperiod>)
    returns (ok: bool)
    requires z.Valid() && testTime >= 0 && ClosedUnderExclusion(all) && (tperiod != null ==> tperiod in all)
    modifies all`exclusions
    ensures forall p :: p in all ==> p.exclusions == old(p.exclusions)
    ensures tperiod == null ==> ok
    ensures tperiod != null && FlatExclusions(tperiod, all) && RangesStartInDay(tperiod) ==>
      && (!NoneAllowed(z, tperiod, tperiod.exclusions, testTime, testTime + ONE_YEAR) ==>
          (ok <==> Allows(z, tperiod, tperiod.exclusions, testTime)))
      && (NoneAllowed(z, tperiod, tperiod.exclusions, testTime, SearchEnd(z, testTime)) ==> ok)
    ensures tperiod != null && tperiod.exclusions == [] && RangesStartInDay(tperiod) ==>
      (ok <==> Allows(z, tperiod, [], testTime) || NoneAllowed(z, tperiod, [], testTime, SearchEnd(z, testTime)))
    ensures tperiod != null && z.Fixed() && IsWeekly(tperiod) ==>
      (ok <==> OpenAt(tperiod, testTime - z.base) || tperiod.days == [[], [], [], [], [], [], []])
  {
    hide Zone.Fixed, OpenAt, Allows;
    if tperiod == null {
      return true;
    }
    if z.Fixed() && IsWeekly(tperiod) {
      WeeklyPeriodAllows(z, tperiod, testTime);
      WeeklyPeriodIsEmpty(z, tperiod, testTime);
    }
    var nextValidTime := GetNextValidTimePerTimeperiod(z, testTime, tperiod, all);
    ok := nextValidTime == testTime;
  }

  /** get_next_valid_time: the first allowed instant neither before the preferred time nor in the past. */
  method GetNextValidTime(z: Zone, prefTime: int, now: int, tperiod: Timeperiod?, ghost all: set<Timeperiod>)
    returns (valid: int)
    requires z.Valid() && now >= 0 && ClosedUnderExclusion(all) && (tperiod != null ==> tperiod in all)
    modifies all`exclusions
    ensures forall p :: p in all ==> p.exclusions == old(p.exclusions)
    ensures valid >= prefTime && valid >= now
    ensures tperiod == null ==> valid == prefTime || valid == now
    ensures tperiod != null && FlatExclusions(tperiod, all) && RangesStartInDay(tperiod) ==>
      var from := if prefTime < now then now else prefTime;
      FirstAllowed(z, tperiod, tperiod.exclusions, from, valid) && (valid == from || valid < SearchEnd(z, from))
    ensures tperiod != null && tperiod.exclusions == [] && RangesStartInDay(tperiod) ==>
      Found(z, tperiod, if prefTime < now then now else prefTime, valid)
  {
    var preferredTime := if prefTime < now then now else prefTime;
    if tperiod == null {
      return preferredTime;
    }
    valid := GetNextValidTimePerTimeperiod(z, preferredTime, tperiod, all);
  }

  // ----- what "offered" means in the cases the documentation describes -----

  /** At most one exception of each kind applies on the day. */
  ghost predicate OneExceptionPerKind(z: Zone, tp: Timeperiod, day: int) {
    forall k: nat :: k < DATERANGE_TYPES ==> AtMostOneCovers(z, tp.exceptions[k], k, day)
  }

  ghost predicate AtMostOneCovers(z: Zone, list: seq<DateRange>, kind: nat, day: int) {
    forall i, j :: 0 <= i < j < |list| ==> !(Covers(z, list[i], kind, day) && Covers(z, list[j], kind, day))
  }

  /** r, of the given kind, is the exception of highest precedence that applies on the day. */
  ghost predicate Decides(z: Zone, tp: Timeperiod, day: int, kind: nat, r: DateRange) {
    && kind < DATERANGE_TYPES && r in tp.exceptions[kind] && Covers(z, r, kind, day)
    && forall k :: 0 <= k < kind ==> !CoversAny(z, tp.exceptions[k], k, day)
  }

  /** With one exception per kind, the exception of highest precedence alone decides its day, and a day
      without exceptions follows the week. */
  lemma PrecedenceDecides(z: Zone, tp: Timeperiod, day: int, t: int)
    requires OneExceptionPerKind(z, tp, day)
    ensures forall kind, r :: Decides(z, tp, day, kind, r) ==>
      (DayOffers(z, tp, day, t) <==> AnyOffers(z, r.times, day, t))
    ensures (forall k :: 0 <= k < DATERANGE_TYPES ==> !CoversAny(z, tp.exceptions[k], k, day)) ==>
      (DayOffers(z, tp, day, t) <==> AnyOffers(z, tp.days[WeekDay(day)], day, t))
  {
    PrecedenceFrom(z, tp, 0, day, t);
  }

  lemma PrecedenceFrom(z: Zone, tp: Timeperiod, from: nat, day: int, t: int)
    requires from <= DATERANGE_TYPES && OneExceptionPerKind(z, tp, day)
    requires forall k :: 0 <= k < from ==> !CoversAny(z, tp.exceptions[k], k, day)
    ensures forall kind, r :: Decides(z, tp, day, kind, r) ==>
      (OffersFrom(z, tp, from, day, t) <==> AnyOffers(z, r.times, day, t))
    ensures (forall k :: 0 <= k < DATERANGE_TYPES ==> !CoversAny(z, tp.exceptions[k], k, day)) ==>
      (OffersFrom(z, tp, from, day, t) <==> AnyOffers(z, tp.days[WeekDay(day)], day, t))
    decreases DATERANGE_TYPES - from
  {
    hide Covers, AnyOffers;
    if from < DATERANGE_TYPES {
      var list := tp.exceptions[from];
      if CoversAny(z, list, from, day) {
        forall kind, r | Decides(z, tp, day, kind, r)
          ensures OffersFrom(z, tp, from, day, t) <==> AnyOffers(z, r.times, day, t)
        {
          SingleRangeOffers(z, list, from, day, t, r);
        }
      } else {
        PrecedenceFrom(z, tp, from + 1, day, t);
      }
    }
  }

  lemma SingleRangeOffers(z: Zone, list: seq<DateRange>, kind: nat, day: int, t: int, r: DateRange)
    requires r in list && Covers(z, r, kind, day)
    requires AtMostOneCovers(z, list, kind, day)
    ensures ListOffers(z, list, kind, day, t) <==> AnyOffers(z, r.times, day, t)
  {
    hide Covers, AnyOffers;
    var i :| 0 <= i < |list| && list[i] == r;
    if AnyOffers(z, r.times, day, t) {
      assert RangeOffers(z, list, kind, day, t, i);
    }
  }

  /** A range that is not empty offers exactly the instants inside it. */
  lemma NonEmptyRangeOffers(z: Zone, tr: TimeRange, day: int, t: int)
    requires RangeStart(z, tr, day) < RangeEnd(z, tr, day)
    ensures Offers(z, tr, day, t) <==> Inside(z, tr, day, t)
  {
  }

  /** A range that ends where it starts offers that instant, and one that ends before it starts offers none. */
  lemma EmptyRangeOffersItsStart(z: Zone, tr: TimeRange, day: int, t: int)
    requires RangeStart(z, tr, day) >= RangeEnd(z, tr, day)
    ensures Offers(z, tr, day, t) <==> t == RangeStart(z, tr, day) == RangeEnd(z, tr, day)
  {
  }

  /** A period without any range allows nothing; it therefore accepts every instant it is asked about. */
  lemma EmptyPeriodAllowsNothing(z: Zone, tp: Timeperiod, from: int, to: int)
    requires z.Valid() && tp.days == [[], [], [], [], [], [], []] && tp.exceptions == [[], [], [], [], []]
    ensures RangesStartInDay(tp) && NoneAllowed(z, tp, [], from, to)
  {
    hide Zone.Valid, Zone.DayOf;
    forall t ensures !Allows(z, tp, [], t) {
      NothingOffered(z, tp, 0, z.DayOf(t), t);
    }
  }

  lemma {:induction false} NothingOffered(z: Zone, tp: Timeperiod, kind: nat, day: int, t: int)
    requires tp.days == [[], [], [], [], [], [], []] && tp.exceptions == [[], [], [], [], []] && kind <= DATERANGE_TYPES
    ensures !OffersFrom(z, tp, kind, day, t)
    decreases DATERANGE_TYPES - kind
  {
    if kind < DATERANGE_TYPES {
      assert tp.exceptions[kind] == [];
      NothingOffered(z, tp, kind + 1, day, t);
    } else {
      assert tp.days[WeekDay(day)] == [];
    }
  }
}
