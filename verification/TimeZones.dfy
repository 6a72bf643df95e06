/** Local time zones with daylight saving, and the day stepping of src/timeperiod.cc that has to survive it. */
module TimeZones {

  const DAY := 86400
  const HOUR := 3600

  /** The value (time_t)-1: "no such time". */
  const NO_TIME := -1

  /** A time zone: at(day, second) is the instant mktime finds for a wall clock reading, given as a day number
      and the seconds since that day's midnight; 86400 stands for the midnight after. Instants are seconds. */
  datatype Zone = Zone(base: int, at: (int, int) -> int) {

    function Midnight(day: int): int { at(day, 0) }

    /** Every local midnight lies within an hour of a fixed offset from UTC, wall clock readings of a day
        fall inside that day, and no midnight is the instant that doubles as the error value. */
    ghost predicate Valid() {
      forall day :: ValidDay(day)
    }

    ghost predicate ValidDay(day: int) {
      && -HOUR <= Midnight(day) - (DAY * day + base) <= HOUR
      && Midnight(day) != NO_TIME
      && (forall s :: 0 <= s < DAY ==> Midnight(day) <= at(day, s) < Midnight(day + 1))
      && at(day, DAY) == Midnight(day + 1)
    }

    /** The clock is never changed. */
    ghost predicate Fixed() {
      forall day, s :: at(day, s) == base + DAY * day + s
    }

    /** The local day localtime_r finds for an instant. */
    function DayOf(t: int): int {
      var day := (t - base) / DAY;
      if t < Midnight(day) then day - 1 else if Midnight(day + 1) <= t then day + 1 else day
    }

    /** localtime_r shows 00:00:00. Wall clocks are assumed to show it once a day. */
    predicate IsMidnight(t: int) { t == Midnight(DayOf(t)) }

    lemma DayOfBounds(t: int)
      requires Valid()
      ensures Midnight(DayOf(t)) <= t < Midnight(DayOf(t) + 1)
    {
      var day := (t - base) / DAY;
      assert ValidDay(day - 1) && ValidDay(day + 2);
    }

    lemma MidnightsIncrease(d: int, e: int)
      requires Valid()
      ensures d < e <==> Midnight(d) < Midnight(e)
      ensures -2 * HOUR <= Midnight(e) - Midnight(d) - DAY * (e - d) <= 2 * HOUR
    {
      assert ValidDay(d) && ValidDay(e);
    }

    /** An instant falls on a day exactly when it lies between that day's midnight and the next. */
    lemma DayOfIs(t: int, day: int)
      requires Valid()
      ensures Midnight(day) <= t < Midnight(day + 1) <==> DayOf(t) == day
    {
      DayOfBounds(t);
      if DayOf(t) < day {
        MidnightsIncrease(DayOf(t) + 1, day);
        MidnightsIncrease(DayOf(t), day);
      } else if day < DayOf(t) {
        MidnightsIncrease(day + 1, DayOf(t));
        MidnightsIncrease(day, DayOf(t));
      }
    }

    lemma MidnightIsMidnight(day: int)
      requires Valid()
      ensures DayOf(Midnight(day)) == day && IsMidnight(Midnight(day))
    {
      MidnightsIncrease(day, day + 1);
      DayOfIs(Midnight(day), day);
    }

    /** Comparing an instant with a midnight compares days. */
    lemma BeforeMidnight(t: int, day: int)
      requires Valid()
      ensures t < Midnight(day) <==> DayOf(t) < day
    {
      DayOfBounds(t);
      MidnightsIncrease(DayOf(t), day);
      MidnightsIncrease(DayOf(t) + 1, day);
    }

    /** What _add_round_days_to_midnight computes, from any instant. */
    function AddRoundDays(midnight: int, skip: int): int {
      var next := midnight + skip;
      if IsMidnight(next) then next else Midnight(DayOf(next + 12 * HOUR))
    }

    /** The trick of going through noon steps over daylight saving: k days after a midnight is the midnight
        k calendar days later, so the day-by-day searches neither skip nor repeat a day. */
    lemma AddRoundDaysIsCalendarDays(day: int, k: int)
      requires Valid()
      ensures AddRoundDays(Midnight(day), DAY * k) == Midnight(day + k)
    {
      var next := Midnight(day) + DAY * k;
      MidnightsIncrease(day, day + k);
      MidnightsIncrease(day + k, day + k + 1);
      if IsMidnight(next) {
        var e := DayOf(next);
        MidnightsIncrease(e, day + k);
      } else {
        DayOfIs(next + 12 * HOUR, day + k);
      }
    }

    /** From any instant a round number of days leads to a later day. */
    lemma AddRoundDaysProgress(t: int, k: int)
      requires Valid() && k >= 1
      ensures DayOf(AddRoundDays(t, DAY * k)) > DayOf(t) && AddRoundDays(t, DAY * k) > t
    {
      var next := t + DAY * k;
      var d := DayOf(t);
      DayOfBounds(t);
      MidnightsIncrease(d, d + 1);
      BeforeMidnight(next + 12 * HOUR, d + 1);
      var r := AddRoundDays(t, DAY * k);
      if IsMidnight(next) {
        BeforeMidnight(next, d + 1);
        MidnightsIncrease(DayOf(next), d);
        DayOfBounds(next);
      } else {
        MidnightIsMidnight(DayOf(next + 12 * HOUR));
        MidnightsIncrease(d + 1, DayOf(next + 12 * HOUR));
      }
    }
  }

  /** Steps over skip / DAY whole days. */
  method AddRoundDaysToMidnight(z: Zone, midnight: int, skip: int) returns (nextDayTime: int)
    ensures nextDayTime == z.AddRoundDays(midnight, skip)
  {
    nextDayTime := midnight + skip;
    if !z.IsMidnight(nextDayTime) {
      nextDayTime := nextDayTime + 12 * 60 * 60;
      nextDayTime := z.Midnight(z.DayOf(nextDayTime));
    }
  }
}
