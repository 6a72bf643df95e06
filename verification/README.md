# A model of the monitoring engine

This project models how the engine decides when to check, what a check result means and whom to tell about it. It
covers six pieces:

- **Time periods** (`Calendar`, `TimeZones`, `DateRanges`, `DateRangeMeanings`, `TimePeriods`, `ExclusionMeanings`):
  the search for the next instant a weekly schedule with calendar exceptions and excluded periods allows.
- **Check results** (`MonitoredObjects`, `ServiceChecks`, `HostChecks`), what one makes of its object (`ServiceResults`,
  `HostResults`) and their runs (`ServiceRuns`, `HostRuns`, `ServiceRecoveries`, `HostRecoveries`): soft and hard
  states, attempts, ids, reachability and recoveries.
  `Dependencies` and `CheckScheduling` hold the dependency checks and the queue of scheduled checks.
- **Notifications** (`Notifications`, `NotificationMeanings`, `NotificationRecords`, `Acknowledgements`, `Escalations`,
  `Audiences`): viability, numbers, notified flags, delays, acknowledgements, escalations and the list of contacts.
- **Circular paths** (`CircularPaths`): the search with five marks for cycles of the host graph.
- **Flap detection** (`Flapping`): the ring of recorded states, the weighted percentage and the hysteresis.
- **Plugin output** (`PluginOutput`): escaping, growable buffers and the line splitter.

Code that updates objects step by step is modelled by classes and methods with loops. Each method is proved against
a function of the old state, and the lemmas prove what that function means: over one call, over every sequence of
calls, or for every graph, calendar or text.

Hosts and services run nearly the same code in the notification, escalation, dependency, scheduling and flapping
files. One model stands for both there, with the differences written out; the table cites one of the two.

## Where the code differs from what one expects

- A LOOPY host need not lie on a cycle (`CircularPaths.LoopyOffCycle`).
- A dependency outside its period ends the whole check instead of being skipped (`Dependencies.ClosedPeriodEndsCheck`).
- A yearly range that starts on 29 February covers other years from 1 January on
  (`DateRangeMeanings.MissingStartDateCoversJanuary`).
- A skip interval counts units of 86400 seconds, so a clock change makes it cover further days
  (`DateRangeMeanings.SkipCovers`, `DateRangeMeanings.SkipBreaksInSpring`).
- Weekday offset 0 leaves the month, and so do -5 and below for one weekday of every month
  (`Calendar.WhenWeekdayLeavesMonth`, `Calendar.OffsetMinusFiveLeavesEveryMonth`).
- A month day beyond a year can be accepted as a day of the next year (`Calendar.OverlongDayIsNextYear`).
- A range of month days with both ends counted from the end of the month is taken to begin in the month before, so that
  "day -5 - day -1" covers every day (`DateRangeMeanings.MonthDayFromEndToEndCovers`).
- A period that allows nothing for a year and a day accepts the instant it is asked about
  (`TimePeriods.CheckTimeAgainstPeriod`), so one without any range accepts all
  (`TimePeriods.EmptyPeriodAllowsNothing`).
- Inside an excluded period exceptions add to the week instead of overriding it
  (`ExclusionMeanings.ExceptionDoesNotOverride`, and for the days on which that matters
  `ExclusionMeanings.AgreeWithException`), and an exception with a skip interval is not applied on the further days it
  covers after a clock change (`ExclusionMeanings.ExceptionMissesShortenedDay`).
- The loop of the search for the next invalid time never runs twice
  (`TimePeriods.GetNextInvalidTimePerTimeperiod`).
- A notification stopped by the event broker leaves the raised number behind (`Notifications.WhatAnAttemptCounts`).
- A custom, downtime or flapping notification can swallow a delayed recovery
  (`ServiceRecoveries.OtherKindsSwallowDueRecovery`), and the end of flapping can send a recovery twice
  (`ServiceRecoveries.RecoverySentTwice`, `HostRecoveries.RecoverySentTwice`).
- The delay before the first notification of a host problem counts from the recovery of the problem before it if that
  was sent, whether the new problem is retried or not (`HostRecoveries.NextProblemCountsFromRecovery`,
  `HostRecoveries.RetriedProblemCountsFromRecovery`). For services nothing is left over to count from.
- A recovery that is not sent leaves the notification number behind, and the first notification of the next problem
  then skips its delay (`ServiceRecoveries.LeftoverNumber`, `ServiceRecoveries.ProblemWaitsIfNought`,
  `ServiceRecoveries.NotifiedWithoutDelay`, and for hosts `HostRecoveries.LeftoverNumber`,
  `HostRecoveries.RetriedProblem`, `HostRecoveries.NotifiedWithLeftoverNumber`).
- A soft host problem loses a normal acknowledgement to the next result although the state stays the same
  (`HostRuns.SoftProblemLosesAcknowledgement`).
- An attempt outside the notification period can bring the next notification forward
  (`NotificationRecords.ClosedPeriodReplacesNextTime`, `NotificationRecords.NotifiedEarly`).
- The output parser undoes escaped newlines twice (`PluginOutput.LinesOfEscapedText`).
- The performance data of the first line and those of a later one are put together without a space between them
  (`PluginOutput.WholeOutput`).

## Model

| member | source | states |
|---|---|---|
| CircularPaths.DfsHostPath | src/config.cc:410-456 | the recursive search ends on any finite graph, returns the mark of its root, settles every host it starts, and keeps the meaning of every mark: OK hosts have only OK children, in-progress hosts reach the current one, LOOPY and NEAR_LOOP hosts reach a cycle |
| CircularPaths.ScanChildren | src/config.cc:423-450 | the loop over the children keeps the same meaning of all marks while children are marked in place under it |
| CircularPaths.ChildVerdict | src/config.cc:433-449 | what a child that is in progress, LOOPY or NEAR_LOOP does to the marks of parent and child keeps the meaning of all marks, so it never marks a host that reaches no cycle |
| CircularPaths.BackEdgeStep | src/config.cc:438-446 | an edge back to a host in progress closes a cycle through both of its ends |
| CircularPaths.FinishScan | src/config.cc:452-455 | a host still in progress after all its children has only OK children, so it reaches no cycle |
| CircularPaths.CycleHostIsLoopy | src/config.cc:410-456 | once a search that met a host on a cycle is over, that host is marked LOOPY, however it was entered |
| CircularPaths.MarksAreExact | src/config.cc:410-456 | when every host is searched: OK iff it reaches no cycle, LOOPY iff it reaches one and has a parent, NEAR_LOOP iff it reaches one and has none |
| CircularPaths.MarkHosts | src/config.cc:481-492 | searching from every host of the list, in any order, leaves exactly these marks |
| CircularPaths.ReportAndClear | src/config.cc:486-503 | the hosts named are, in list order, exactly those that reach a cycle and have a parent, and every mark is cleared |
| CircularPaths.PreFlightCircularCheck | src/config.cc:481-503 | the check fails iff the host graph has a cycle, independently of the order of the host list |
| CircularPaths.LoopyOffCycle | src/config.cc:443-446 | LOOPY does not mean being on a cycle: a host leading into the loop of another is marked LOOPY |
| Calendar.CivilRoundTrip | src/timeperiod.cc:83-137 | breaking down the day of any date of the proleptic Gregorian calendar gives the date back (the calendar behind mktime and localtime_r) |
| Calendar.WeekDaysAreThoseOfTheCalendar | src/timeperiod.cc:151-222 | 1 January 1970 was a Thursday, and the weekdays follow each other (the tm_wday of localtime_r) |
| Calendar.MonthsAreThoseOfTheCalendar | src/timeperiod.cc:83-137 | which months have a 30th and a 31st, and 29 February exists iff the year is divisible by 4 and not by 100, or by 400 |
| Calendar.YearStartIs | src/timeperiod.cc:83-137 | the first day of every year in closed form, with one leap day for every fourth, but not every hundredth, but every four-hundredth year before it |
| Calendar.CalculateTimeFromDayOfMonth | src/timeperiod.cc:83-137 | the search for a month day, with the loop that backs up from day 32 to the end of the month, ends and finds the day of DayOfMonthMeans |
| Calendar.DayOfMonthMeans | src/timeperiod.cc:83-137 | over all years and months day k, up to 365, exists iff the month is long enough; a larger k iff it falls into the same month of a later year; and day -k, for every k, is day max(1, length + 1 - k) |
| Calendar.OverlongDayIsNextYear | src/timeperiod.cc:100-104 | the test for a day past its month looks at the month alone: day 380 is accepted as a day of the next year |
| Calendar.CalculateTimeFromWeekdayOfMonth | src/timeperiod.cc:151-222 | the day computed for a weekday offset is the one PositiveWeekdayOffset, NegativeWeekdayOffset and WhenWeekdayLeavesMonth speak about, failure included |
| Calendar.FindLastWeekDay | src/timeperiod.cc:192-206 | the loop that backs up week by week ends at the last such weekday of the month |
| Calendar.PositiveWeekdayOffset | src/timeperiod.cc:174-190 | offsets 1 to 5 give the n-th such weekday, or fail iff the month has none; larger offsets act as 5 |
| Calendar.NegativeWeekdayOffset | src/timeperiod.cc:191-221 | offsets -1 to -4 give the n-th such weekday from the end, which is always inside the month |
| Calendar.WhenWeekdayLeavesMonth | src/timeperiod.cc:208-216 | a non-positive offset yields the right weekday but leaves the month iff the offset is 0, or at most -5 while the last such weekday is the 28th |
| Calendar.OffsetMinusFiveLeavesEveryMonth | src/timeperiod.cc:208-216 | every month has a weekday for which offset -5 leaves it: that of its 28th |
| TimeZones.Zone.AddRoundDaysIsCalendarDays | src/timeperiod.cc:47-71 | in every zone whose midnights stay within one hour of a fixed offset, k round days after a midnight is exactly the midnight k calendar days later |
| TimeZones.Zone.AddRoundDaysProgress | src/timeperiod.cc:47-71 | from any instant, a positive number of round days leads to a midnight of a later day |
| TimeZones.AddRoundDaysToMidnight | src/timeperiod.cc:47-71 | the noon arithmetic computes that step |
| DateRanges.DaterangeCalendarDateToTime | src/timeperiod.cc:243-277 | the span computed is the one CalendarDateCovers gives a meaning to |
| DateRanges.DaterangeMonthDateToTime | src/timeperiod.cc:289-318 | the span, found by a loop over three years, is the one MonthDateCoversExactly gives a meaning to |
| DateRanges.DaterangeMonthDayToTime | src/timeperiod.cc:330-419 | the span is the one the MonthDay lemmas give a meaning to |
| DateRanges.DaterangeMonthWeekDayToTime | src/timeperiod.cc:431-493 | the span is the one the MonthWeekDay lemmas give a meaning to |
| DateRanges.DaterangeWeekDayToTime | src/timeperiod.cc:505-576 | the unbounded loop over months ends, with the span WeekDayCovers gives a meaning to |
| DateRanges.SecondPassSuffices | src/timeperiod.cc:505-576 | the range of the following month always ends after today, so the loop needs at most two passes |
| DateRanges.DaterangeToTime | src/timeperiod.cc:589-634 | the span of the range kind, moved to the next day its skip interval hits |
| DateRanges.SkippedStart | src/timeperiod.cc:613-631 | at every time of a day the skip interval yields the same span: comparing instants is comparing days |
| DateRanges.EarliestMidnightInDaterange | src/timeperiod.cc:647-675 | the search through a range by days or skip intervals ends and finds the midnight of EarliestMidnightIsFirstHit |
| DateRanges.EarliestMidnightIsFirstHit | src/timeperiod.cc:647-675 | that midnight is the first day of the skip pattern not before today, or nothing once the range is over |
| DateRanges.RangesKeepMinutes | src/timeperiod.cc:687-703 | a time range starts and ends at its hour and minute of the day, its seconds being dropped |
| DateRanges.GetNextValidTimeInTimeranges | src/timeperiod.cc:924-955 | the earliest start or inside instant of the ranges of one day that is not before the preferred time, or none exactly when every range is over |
| DateRangeMeanings.CalendarDateCovers | src/timeperiod.cc:243-277 | a calendar range covers exactly the days from its first to its last date, for ever without an end date |
| DateRangeMeanings.MonthDayCovers | src/timeperiod.cc:330-419 | with positive days inside one month the range covers exactly these days of every month that has the last one, and none of the others |
| DateRangeMeanings.MonthDayToEndCovers | src/timeperiod.cc:330-419 | from a day to the k-th day before the end: exactly these days of every month |
| DateRangeMeanings.MonthDayAcrossMonthsCovers | src/timeperiod.cc:330-419 | from a day of one month to an earlier one of the next, with the exact cases in which a missing day drops the range or half of it |
| DateRangeMeanings.MonthDayFromEndCovers | src/timeperiod.cc:330-419 | from the k-th day before the end to a day of the same month: exactly these days of every month that has the last one |
| DateRangeMeanings.MonthDayFromEndToEndCovers | src/timeperiod.cc:330-419 | with both days counted from the end: the days up to the last and from the first on, so all days if the first does not lie behind the last |
| DateRangeMeanings.MonthDayZeroCovers | src/timeperiod.cc:330-419 | day 0 is the first of the next month: which days a range covers that starts or ends there |
| DateRangeMeanings.MonthDateCoversExactly | src/timeperiod.cc:289-318 | which days a yearly range covers, decided by the first year whose end is not over, of at most three, including years that lack the start or the end date |
| DateRangeMeanings.MonthDateCovers | src/timeperiod.cc:289-318 | when both dates exist every year these are exactly the days between them |
| DateRangeMeanings.MonthDateAcrossYearsCovers | src/timeperiod.cc:289-318 | a range round the end of the year covers exactly the days up to its end date and from its start date on, when both exist every year |
| DateRangeMeanings.MissingStartDateCoversJanuary | src/timeperiod.cc:289-318 | a range starting on 29 February also covers the first of January of every other year |
| DateRangeMeanings.WeekDayCovers | src/timeperiod.cc:505-576 | a monthly weekday range covers from its start weekday to its end weekday of the same month, or to the end of the month |
| DateRangeMeanings.MonthWeekDayCovers | src/timeperiod.cc:440-453 | from a weekday of one month to a weekday of a later one: exactly the days between them, or none in a year that lacks one of them |
| DateRangeMeanings.MonthWeekDayAcrossYearsCovers | src/timeperiod.cc:454-490 | round the end of the year: the exact days, and which missing weekday drops the range or its second half |
| DateRangeMeanings.SkipCovers | src/timeperiod.cc:613-631 | a skip interval covers every n-th day while the clock offset of the start and of the day agree, and exactly which days otherwise |
| DateRangeMeanings.SkipBreaksInSpring | src/timeperiod.cc:613-631 | a zone and a range in which the day after a hit is covered as well |
| TimePeriods.OfferOfDay | src/timeperiod.cc:996-1058 | the first instant of the day, not before the preferred time, that the exceptions of highest precedence or else the week offer |
| TimePeriods.OfferOfRanges | src/timeperiod.cc:1003-1044 | one exception kind: the earliest offer of the covering ranges, and whether the kind takes the day over |
| TimePeriods.PrecedenceDecides | src/timeperiod.cc:996-1058 | with at most one covering exception of each kind, the kind of highest precedence alone decides the day, and a day without exceptions follows the week |
| TimePeriods.NonEmptyRangeOffers | src/timeperiod.cc:924-955 | a non-empty range offers exactly the instants inside it |
| TimePeriods.EmptyRangeOffersItsStart | src/timeperiod.cc:924-955 | a range that ends where it starts offers that instant alone, one that ends earlier offers none |
| TimePeriods.WeeklyPeriodAllows | src/timeperiod.cc:994-1058 | where the clock is never changed, a period that is only a week allows exactly the minutes of the local day that lie in a range of its weekday, the end excluded |
| TimePeriods.WeeklyPeriodIsEmpty | src/timeperiod.cc:985-1103 | such a period allows nothing within the year that is searched iff it has no ranges at all |
| TimePeriods.EndOfException | src/timeperiod.cc:777-829 | the end found for an exception of an excluded period bounds a stretch in which every instant is excluded |
| TimePeriods.EndOfWeeklyRange | src/timeperiod.cc:831-860 | likewise for the weekly ranges; of the eight days looked at only the first can matter |
| TimePeriods.NextExclusion | src/timeperiod.cc:863-880 | the search among exclusions, made with the own exclusion list taken away, restores every list |
| TimePeriods.GetNextInvalidTimePerTimeperiod | src/timeperiod.cc:741-914 | ends on every finite set of periods, cyclic ones included, returns no time before the one asked for, restores every exclusion list, and for a period without exclusions ends exactly a stretch of excluded instants |
| TimePeriods.MaxInvalid | src/timeperiod.cc:1060-1083 | how far the excluded periods reach from an offered time: not at all, or past instants that are all excluded |
| TimePeriods.SearchDay | src/timeperiod.cc:981-1093 | one round of the search yields the first allowed instant of the day or goes on behind instants none of which is allowed, at a midnight if the period has no exclusions, and restores every exclusion list |
| TimePeriods.DaySearched | src/timeperiod.cc:981-1093 | one day of the search skips no allowed instant, whether the day offers nothing, its offer is excluded or its offer stands |
| TimePeriods.GetNextValidTimePerTimeperiod | src/timeperiod.cc:964-1103 | ends on every finite set of periods, cyclic ones included, restores every exclusion list, and returns the least allowed instant not before the one asked for, or that instant itself if none is allowed within a year; it finds none beyond the day on which the year ends. For a period without exclusions this is exact: the first allowed instant up to the end of that day, or the instant asked for iff there is none |
| TimePeriods.GetNextValidTime | src/timeperiod.cc:1113-1138 | the least allowed instant neither before the preferred time nor in the past, under the same fallback and as exact |
| TimePeriods.CheckTimeAgainstPeriod | src/timeperiod.cc:714-731 | OK iff the instant is allowed, as long as some instant of the coming year is; OK for every instant when nothing is allowed up to the end of the day on which that year ends; for a period without exclusions OK iff one of the two holds; for a period that is only a week, where the clock is never changed, OK iff the minute of the day lies in a range of its weekday or the week is empty |
| TimePeriods.EmptyPeriodAllowsNothing | src/timeperiod.cc:1095-1103 | a period all of whose ranges are missing allows no instant, so every instant is OK |
| ExclusionMeanings.ExceptionTakesAway | src/timeperiod.cc:775-829 | what an exception of an excluded period takes away: its time ranges on every day of its span that lies a whole number of skip intervals after the start |
| ExclusionMeanings.ExceptionTakesCoveredDays | src/timeperiod.cc:775-829 | without a skip interval these are the days the exception covers |
| ExclusionMeanings.ExceptionMissesShortenedDay | src/timeperiod.cc:775-829 | on the day after a hit of a skip interval nothing is taken away, though the exception covers that day iff the clock was moved forward since the start |
| ExclusionMeanings.ExclusionTakesAway | src/timeperiod.cc:775-861 | an excluded period takes away its weekly ranges of the day and those of every exception that covers it |
| ExclusionMeanings.AgreeWithoutException | src/timeperiod.cc:775-861 | on a day no exception covers that is exactly what the period offers, no range being empty |
| ExclusionMeanings.AgreeWithException | src/timeperiod.cc:775-861 | on a day an exception decides all that is offered is taken away, and nothing more iff what the week and the other covering exceptions have at that instant lies in the ranges of the deciding one |
| ExclusionMeanings.ExceptionDoesNotOverride | src/timeperiod.cc:775-861 | a period and an instant it does not offer, which an exclusion of it takes away all the same |
| Dependencies.CheckDependencies | src/checks.cc:1467-1535 | on an acyclic graph the recursion ends, and it fails iff a chain of inheriting dependencies of the requested type ends in one whose master trips a failure state; hosts (1959-2022) alike |
| Dependencies.FailureMeans | src/checks.cc:1484-1530 | the check fails iff it gets, before any dependency of the kind outside its period, to one that trips or that inherits those of a master whose own check fails |
| Dependencies.StateLookedAt | src/checks.cc:1504-1521 | the state looked at is the last hard one of a soft master, unless soft states count, else the current one; a good state of a master never checked counts as pending |
| Dependencies.SkippingFailsToo | src/checks.cc:1484-1530 | what fails also fails if dependencies outside their period were skipped, and the two readings agree when no eligible dependency stands behind a closed one |
| Dependencies.ClosedPeriodEndsCheck | src/checks.cc:1497-1501 | for every kind of dependency, a closed one in front of one that fails in every state: skipping it would fail, the check does not |
| CheckScheduling.EventQueue.AddEvent | src/events/timed_event.cc:365-429 | the event goes behind all events that run no later and before all that run later; list stays sorted and free of duplicates, the index agrees |
| CheckScheduling.EventQueue.RemoveEvent | src/events/timed_event.cc:766-813 | exactly that event leaves list and index |
| CheckScheduling.EventQueue.ScheduleCheck | src/checks.cc:1817-1956 | one request changes the queued check of its object alone, and next_check is the run time of the queued check after every accepted request; services (1255-1384) alike |
| CheckScheduling.EventQueue.OneEventPerObject | src/checks.cc:1270-1378 | no two queued checks have the same object |
| CheckScheduling.QueuedCheckIsTheWinner | src/checks.cc:1270-1378 | after any sequence of requests the queued check is that of the earliest forced request if there was one, else of the earliest accepted one, and there is none iff none was accepted |
| CheckScheduling.WinnerIsUnique | src/checks.cc:1270-1378 | this request is determined, ties going to the first |
| Flapping.FlapObject.RecordState | src/flapping.cc:95-101 | the ring, read from the oldest entry on, drops its oldest state and gains the newest |
| Flapping.FlapObject.ScanHistory | src/flapping.cc:103-134 | the wrapping index scan computes the weighted sum over the history read oldest first |
| Flapping.PercentageBounds | src/flapping.cc:103-134 | for every history of at least three states the percentage lies between 0 and 100, is 100 iff all neighbours differ and 0 iff all states are equal |
| Flapping.WeightsRise | src/flapping.cc:119-128 | the oldest change weighs 0.75, the newest 1.25, and the weights rise by equal steps |
| Flapping.VerdictMeans | src/flapping.cc:153-184 | flapping goes on above the low threshold, and begins where the percentage is also at or above the high one |
| Flapping.LastDecisivePercentageRules | src/flapping.cc:153-184 | from any history and indicator and over any run of checks, whatever states they record, the indicator is the verdict of the last percentage outside the open band |
| Flapping.UndecidedChangesNothing | src/flapping.cc:153-184 | a run whose percentages all lie inside the band leaves the indicator as it was |
| Flapping.SteadyStateEndsFlapping | src/flapping.cc:95-184 | recording the same state as often as the history is long ends flapping, whatever was recorded before |
| Flapping.FlapObject.CheckForServiceFlapping | src/flapping.cc:38-186 | history, percentage and verdict after a check; the comment exists iff the service is flapping; soft problem states change nothing |
| Flapping.FlapObject.CheckForHostFlapping | src/flapping.cc:189-354 | the same for hosts, where a state is recorded without a check only after the waiting time |
| Flapping.FlapObject.SetFlap | src/flapping.cc:361-439 | flapping starts with a new comment, and a recovery notification is owed iff a problem had been notified |
| Flapping.FlapObject.EndFlap | src/flapping.cc:442-508 | flapping ends with its comment removed, and an owed recovery is attempted iff the state is OK |
| Flapping.FlapObject.HandleFlapDetectionDisabled | src/flapping.cc:977-1036 | the comment exists iff the object is flapping also across disabling |
| Flapping.FlapObject.DisableFlapDetection | src/flapping.cc:937-974 | disabling ends flapping and keeps the history |
| Escalations.IsValidEscalation | src/notifications.cc:1114-1175 | the tests decide validity, with the number reduced by one for a recovery; hosts (2314-2372) alike |
| Escalations.ShouldBeEscalated | src/notifications.cc:1185-1213 | escalated iff some escalation is valid |
| Escalations.EscalationApplies | src/notifications.cc:1114-1175 | an escalation applies to a problem from its first to its last notification, in its period and states, to a recovery one number later, and to every broadcast about its object |
| Escalations.ProblemAudience | src/notifications.cc:1216-1348 | who hears of a problem: the contacts of all escalations that cover the notification or, iff none does, those of the object |
| Escalations.BroadcastAudience | src/notifications.cc:1216-1348 | a broadcast goes to the contacts of every escalation of the object and to its own |
| Escalations.RecoveryAudience | src/notifications.cc:1128-1151 | for escalations without period enabled for both states, the audience of a recovery numbered n + 1 is that of the problem notification numbered n |
| Audiences.ServiceRecoveryAudience | src/notifications.cc:1128-1151 | in every undisturbed run of a new service a recovery is addressed to exactly the people the last notification of the problem was addressed to, for escalations without period enabled for both states |
| Audiences.HostRecoveryAudience | src/notifications.cc:2328-2351 | the same for hosts |
| Escalations.NotificationList.FindNotification | src/notifications.cc:2692-2708 | finds a contact iff it is listed |
| Escalations.NotificationList.AddNotification | src/notifications.cc:2711-2746 | adds a contact once |
| Escalations.NotificationList.CreateNotificationList | src/notifications.cc:1216-1348 | the list holds exactly the audience, every contact once: members of valid escalations, and the normal contacts when not escalated or broadcast; hosts (2406-2545) alike |
| Escalations.GetNextNotificationTime | src/notifications.cc:2552-2616 | the shortest interval set by a valid escalation, or else the own interval, decides the next time, and an interval of zero stops further notifications; hosts (2619-2685) alike |
| Notifications.CheckNotificationViability | src/notifications.cc:374-727 | which attempts are viable, and that an attempt outside the period or in its delay leaves only the next time or the start of the delay behind; hosts (1646-1939) alike |
| Notifications.SendNotification | src/notifications.cc:69-371 | number, flags, recovery mark and record entry after an attempt; hosts (1355-1643) alike |
| Notifications.NotifyContacts | src/notifications.cc:190-369 | a raised number is taken back iff no contact was notified by a normal notification, or the list was empty |
| Notifications.NotifyKeepsNumbers | src/notifications.cc:123-337 | no attempt makes the number negative or leaves a flag set while the number is 0 |
| Notifications.WhatAnAttemptCounts | src/notifications.cc:123-337 | a viable normal attempt raises the number by one iff the broker stops it or a contact is notified, and sets a flag iff it passes the broker in a problem and a contact is notified |
| Notifications.OtherKindsFollow | src/notifications.cc:285-337 | other kinds of notifications keep the flags, and the number unless asked to raise it |
| Escalations.IntervalOfProblem | src/notifications.cc:2575-2605 | for a problem the interval is the shortest of those that the escalations covering the notification set, or else the own one |
| NotificationMeanings.ProblemAttemptIsViable | src/notifications.cc:374-727 | an attempt about a problem is viable iff all is switched on, nothing is in downtime or flapping, dependencies and host are well, the state is hard, unacknowledged and notified about, and neither delay nor interval nor an end of notifications holds it back |
| NotificationMeanings.RecoveryAttemptIsViable | src/notifications.cc:374-727 | likewise for a recovery: hard, of interest, somebody was told about the problem, and the delay is over if it is still due |
| NotificationMeanings.OtherAttemptIsViable | src/notifications.cc:455-553 | what custom, acknowledgement, flapping and downtime notifications depend on, each exactly |
| NotificationMeanings.ForcedAttemptIsViable | src/notifications.cc:391-397 | a forced notification is always viable |
| NotificationMeanings.NormalAttemptLeaves | src/notifications.cc:123-371 | every field and the record after a normal attempt: times and flags only if a contact was told, the number also if the broker stopped it, the next time also outside the period |
| NotificationMeanings.DelayStartsToCount | src/notifications.cc:630-646 | the delay starts to count with the first attempt that reaches its test |
| NotificationMeanings.OtherAttemptLeaves | src/notifications.cc:123-371 | the other kinds change nothing but the number, on request, and the mark of a sent recovery, in the OK state |
| NotificationMeanings.NoticesOfFlapping | src/flapping.cc:361-508 | a change of flapping is announced once, and its end makes one normal attempt iff a recovery is owed and the state is OK |
| Acknowledgements.AcknowledgedServiceIsSilent | src/notifications.cc:567-573 | in every run, as long as a service stays acknowledged, no normal attempt is viable |
| Acknowledgements.AcknowledgementLasts | src/checks.cc:531-582 | an acknowledgement lasts, and silences the service, through every run without another one, in which no result ends the problem or, if it is not sticky, changes its state |
| Acknowledgements.AcknowledgedHostIsSilent | src/notifications.cc:1818-1823 | the same for hosts as long as they stay acknowledged, reminders by failing services included |
| Acknowledgements.StickyAcknowledgementLasts | src/sehandlers.cc:1063-1082 | a sticky acknowledgement lasts, and silences the host, through every run of results that do not report it UP |
| NotificationRecords.QuietUntilNextTime | src/notifications.cc:414-727 | after a problem was notified, no attempt of any number of them is viable iff none is otherwise open once its deadline has passed, the deadline being the time the last notification set or the last attempt outside the period set anew; and then only the deadline has changed |
| NotificationRecords.ClosedPeriodReplacesNextTime | src/notifications.cc:414-450 | an attempt that would come too early goes out after one outside the period iff the next time in the period has come |
| NotificationRecords.NotifiedEarly | src/notifications.cc:414-450 | a problem notified at 1000 and to be repeated at 4600 is notified again at 3000 |
| NotificationRecords.FirstAttemptWaits | src/notifications.cc:627-667 | an otherwise open attempt about a problem is held back by the delay iff the number is 0 and no start of a delay is left over or the delay has not passed since then |
| NotificationRecords.AtMostOneRecoveryPerProblem | src/notifications.cc:614-667 | in a record where every recovery answers a pending problem, two recoveries are separated by a problem notification that reached a contact, unless the first was made at an end of flapping |
| NotificationRecords.FollowOn | src/notifications.cc:123-337 | the rules on flags and numbers compose: what two successive parts of a run keep, the whole keeps |
| ServiceChecks.HandleAsyncServiceCheckResult | src/checks.cc:207-1204 | for every result, host state and decision on flapping the handler leaves the state and counters and makes the attempts that the lemmas of ServiceResults, ServiceRuns and ServiceRecoveries speak about; discarded results change nothing |
| ServiceChecks.HandleOk | src/checks.cc:608-767 | the branch for OK results: announcing a recovery now or later, and what is reset once it was sent |
| ServiceChecks.HandleProblem | src/checks.cc:910-1085 | the branch for other results: host down, retries and the final attempt |
| ServiceRuns.ProgressStep | src/checks.cc:494-1092 | every result keeps attempt within 1..max, SOFT only for problems with attempts left, HARD only with last hard state equal to the state, OK only HARD at attempt 1 without host problem, whatever the host state |
| ServiceRuns.ResultKeepsInvariant | src/checks.cc:494-1092 | in addition an OK service carries no acknowledgement, a problem id marks exactly the problems, and number and flags agree |
| ServiceRuns.IdsAndAcknowledgements | src/checks.cc:531-606 | a problem keeps one id from its first non-OK result to its end, every change of state has its own event id, a normal acknowledgement lasts while the state stays the same, a sticky one until the service is OK |
| ServiceRuns.IdsAreDistinct | src/checks.cc:584-606 | in every run that draws from the program-wide counters all changes of state have different event ids and all problems different problem ids |
| ServiceRuns.StepFollows | src/checks.cc:667-758 | no event of a run takes number or flags back except by clearing both, and flags appear only with a problem notification that reached a contact |
| ServiceRuns.RecoveriesInRuns | src/checks.cc:667-758 | after every run of results, notices of flapping, other notifications and acknowledgements every recovery answers a problem notified since the last recovery that settled one |
| ServiceRuns.RecoveryNumbersInRuns | src/checks.cc:667-758 | when no recovery is owed by flapping, all recoveries settle their problem, and without broker interference and forced increments each carries the number of the last problem notification plus one |
| ServiceRuns.OneRecoveryPerProblem | src/checks.cc:667-758 | from a new service on, a problem notification that reached a contact precedes every recovery, and separates any two the first of which was not made at an end of flapping; none is made there unless one is owed |
| ServiceRuns.RetriesAreExact | src/checks.cc:494-1092 | k failures in a row with the host up leave attempt min(k, max), HARD iff k >= max, and exactly one notification attempt for each result from number max on |
| ServiceResults.StateOfResult | src/checks.cc:231-513 | which results are discarded, and the state of all others: the return code of a check that ended well, else UNKNOWN |
| ServiceResults.ProblemResult | src/checks.cc:779-1092 | every problem result, the host up or down, exactly: attempt, HARD or SOFT, last hard state, host problem, notices of flapping, and the one normal attempt, made iff the attempt is the last, with its viability field by field |
| ServiceResults.OutageIsHardAtOnce | src/checks.cc:910-935 | an OK service that fails while its host is down is HARD from the first failure on, at attempt 1, and not notified about unless that is the last attempt |
| ServiceResults.RetriesStartAfterOutage | src/checks.cc:937-1092 | with the host back, after an outage that found the service OK or left its problem soft, the m-th failure is attempt m, HARD and notified about iff m >= max |
| ServiceResults.OkResult | src/checks.cc:608-767 | every OK result, exactly: the end of a hard problem, or of one the host was down for, is announced, a recovery not yet sent is attempted again, the end of a soft problem is not viable; and what is reset |
| ServiceRecoveries.DueRecoveryIsRetried | src/checks.cc:724-758 | a delayed recovery is attempted with every OK result until sent, and sent by the first one nothing stands in the way of |
| ServiceRecoveries.DueRecoveryIsSentOnce | src/checks.cc:724-758 | over any run of OK results a delayed recovery is sent at most once, as the last attempt, and is settled iff it was sent |
| ServiceRecoveries.OtherKindsSwallowDueRecovery | src/notifications.cc:363-369 | another notification while a recovery is due marks it as sent, never to be announced, iff the notification is viable and passes the broker |
| ServiceRecoveries.CustomNotificationSwallowsDueRecovery | src/notifications.cc:363-369 | every due recovery is lost to a custom notification with every switch open |
| ServiceRecoveries.RecoverySentTwice | src/checks.cc:667-698 | when flapping ends within a hard recovery and a recovery is owed, two recoveries go out iff the attempt at the end of flapping is viable and passes the broker and nothing stands in the way of the own one of the handler; no problem is notified between them and the first is the one made at the end of flapping |
| ServiceRecoveries.RecoveredTwice | src/checks.cc:667-698 | a critical service for which both go out |
| ServiceRecoveries.FirstNotificationIsDelayed | src/notifications.cc:627-667 | in every run of a service, flapping included, every notification of a problem that began with the number at 0 comes when the delay has passed between attempts about that problem |
| ServiceRecoveries.LeftoverNumber | src/checks.cc:748-758 | after an OK result the number is 0 iff it was or the recovery counts as sent; a hard recovery counts as sent iff it is viable and passes the broker |
| ServiceRecoveries.RetriesKeepNumber | src/checks.cc:960-1040 | failures that are still retried attempt nothing and leave number, flags and start of the delay alone |
| ServiceRecoveries.ProblemWaitsIfNought | src/notifications.cc:630-667 | for every number of retries: the first attempt about a problem of an OK service, otherwise open, is held back iff the number was 0 when the problem began |
| ServiceRecoveries.NotifiedWithoutDelay | src/notifications.cc:630-635 | a service that never notifies about recoveries: its first problem waits ten minutes, its second is notified at once with number 2 |
| HostChecks.AdjustHostCheckAttempt | src/checks.cc:3419-3448 | attempts start over after a hard state and count up to the maximum otherwise |
| HostChecks.DetermineHostReachability | src/checks.cc:3451-3509 | UP iff the host is UP; otherwise DOWN iff it has no parents or some resolved parent is UP, UNREACHABLE iff it has parents and none is |
| HostChecks.CheckParents | src/checks.cc:3014-3063 | serial checks stop at the first parent found UP; DOWN iff there are no parents or one was found UP, else UNREACHABLE |
| HostChecks.TranslateResult | src/checks.cc:2655-2731 | an active result is UP iff it exited well with OK, or with WARNING while checking is not aggressive, or there is no command; a passive one carries its own state |
| HostChecks.ProcessState | src/checks.cc:2827-3121 | for every combination of old state, result, check type and settings, the state HostRuns.ResultDecidesState speaks about |
| HostChecks.HandleHostState | src/sehandlers.cc:991-1161 | for every processed state the handler leaves the state and makes the attempts that the lemmas of HostRuns speak about |
| HostChecks.HandleAsyncHostCheckResult | src/checks.cc:2465-2745 | for every result the handler leaves the state and counters and makes the attempts that the lemmas of HostResults, HostRuns and HostRecoveries speak about; a failure leaves the host DOWN or UNREACHABLE by the state of its parents, or in the state a passive result carries; discarded results change nothing |
| HostRuns.ResultFollows | src/checks.cc:2827-3121 | every result keeps attempts in 1..max, an UP host free of acknowledgements, a problem id on exactly the problems, number and flags in agreement |
| HostRuns.ResultDecidesState | src/checks.cc:2837-3121 | UP iff the result says so; otherwise active and translated results take the verdict on the route; which results are hard on the way up, on the way down and by being final |
| HostRuns.IdsAndAcknowledgements | src/sehandlers.cc:1042-1082 | a problem keeps one id from its first result other than UP to its end; which acknowledgements are lost, exactly: all when the host is UP, and normal ones also when the state changes or a soft problem gets a result whose state is not its last hard one |
| HostRuns.SoftProblemLosesAcknowledgement | src/sehandlers.cc:1025-1070 | a soft problem that loses its normal acknowledgement to a result with the same state |
| HostRuns.IdsAreDistinct | src/sehandlers.cc:1042-1059 | in every run that draws from the program-wide counters all changes have different event ids and all problems different problem ids |
| HostRuns.RecoveriesInRuns | src/sehandlers.cc:1098-1152 | after every run of launches, results, reminders, notices of flapping, other notifications and acknowledgements every recovery answers a problem notified since the last recovery that settled one |
| HostRuns.RecoveryNumbersInRuns | src/sehandlers.cc:1098-1152 | when no recovery is owed by flapping, all recoveries settle their problem, and without interference each carries the number of the last problem notification plus one |
| HostRuns.OneRecoveryPerProblem | src/sehandlers.cc:1098-1152 | from a new host on, a problem notification that reached a contact precedes every recovery, and separates any two the first of which was not made at an end of flapping |
| HostRuns.RetriesAreExact | src/checks.cc:2995-3121 | the k-th failure in a row is HARD iff k >= max and stays so although the attempt wraps to 1; each hard failure attempts a notification, no soft one does |
| HostResults.StateOfResult | src/checks.cc:2500-2731 | which results are discarded, and the state of all others |
| HostResults.LaunchCounts | src/checks.cc:3419-3448 | launching an active check is attempt 1 after a hard state and while the host is UP, and one more attempt, up to the last, of a soft problem |
| HostResults.ProgressAfterResult | src/checks.cc:2827-3121 | attempt, HARD or SOFT and last states after every result, from the attempt it is judged at and whether it is final |
| HostResults.AttemptsAfterResult | src/sehandlers.cc:1025-1152 | the attempts every result makes, exactly: one about a hard problem or an unsent hard recovery, with its viability field by field and its times started over by a change, and then the notice of flapping |
| HostRecoveries.DueRecoveryIsRetried | src/sehandlers.cc:1128-1152 | a delayed recovery is attempted with every UP result until sent, and sent by the first one nothing stands in the way of |
| HostRecoveries.OtherKindsSwallowDueRecovery | src/sehandlers.cc:1127-1152 | another notification while a recovery is due marks it as sent iff it is viable and passes the broker; UP results then announce nothing, and number and flags stay |
| HostRecoveries.RecoverySentTwice | src/sehandlers.cc:1098-1152 | when flapping ends on an UP host with a recovery owed and a soft problem follows, two recoveries go out for one problem iff the first passes, recoveries are not delayed and nothing stands in the way of the second; no problem is notified between them and the first is the one made at the end of flapping |
| HostRecoveries.RecoveredTwice | src/sehandlers.cc:1098-1152 | a host for which both go out |
| HostRecoveries.NextProblemCountsFromRecovery | src/sehandlers.cc:1119-1124 | after a sent recovery the first notification of a problem that is hard at once is held back iff the delay has not passed since the recovery was first attempted |
| HostRecoveries.FirstProblem | src/notifications.cc:1866-1892 | the first attempt about a problem that is hard at once, otherwise open, is held back iff the number is 0 and no start of a delay is left over or the delay has not passed since then |
| HostRecoveries.RetriedProblem | src/sehandlers.cc:1042-1152 | a problem that is retried, whatever flapping does meanwhile, makes its first attempt with number and start of the delay as they were when it began, so it is held back under the same condition |
| HostRecoveries.RetriedProblemCountsFromRecovery | src/sehandlers.cc:1119-1124 | after a sent recovery the first attempt about a problem that is retried is held back iff the delay has not passed since the recovery was first attempted |
| HostRecoveries.LeftoverNumber | src/sehandlers.cc:1119-1152 | after an UP result on a hard host the number is 0 iff it was or a recovery is announced that is viable and passes the broker |
| HostRecoveries.NotifiedWithLeftoverNumber | src/notifications.cc:1866-1892 | a host that never notifies about recoveries: its second problem is notified at once with number 2 |
| HostRecoveries.NotifiedWithoutDelay | src/sehandlers.cc:1119-1124 | a host whose new problem is notified at once although first notifications are to wait |
| PluginOutput.UnescapeEscape | src/utils.cc:638-668 | unescaping after escaping is the identity on every text |
| PluginOutput.EscapedIsOneLine | src/utils.cc:638-668 | escaped text has no newline and at most twice the length, so the buffer suffices |
| PluginOutput.EscapeMeans | src/utils.cc:638-668 | a text is escaped character by character, a backslash into two, a newline into backslash and n, all else unchanged |
| PluginOutput.EscapeNewlines | src/utils.cc:638-668 | the two-index loop writes the escaped text |
| PluginOutput.UnescapeInPlace | src/utils.cc:423-437 | the in-place loop leaves the unescaped text, its write index never passing its read index |
| PluginOutput.DynamicBuffer.StrCat | src/utils.cc:878-910 | the contents are what was there with the text appended, and allocated memory always exceeds what is used |
| PluginOutput.JoinSplit | src/utils.cc:440-535 | splitting at newlines loses nothing and leaves no newline in a line |
| PluginOutput.SplitJoin | src/utils.cc:440-535 | joining lines that contain no newline and splitting again gives the lines back |
| PluginOutput.BarSeparates | src/utils.cc:467-510 | a text with a bar is what comes before its first bar, the bar, and what comes after it; one without is all before |
| PluginOutput.BarsAreSkipped | src/utils.cc:467-476 | exactly the bars a first line begins with are skipped |
| PluginOutput.StripCutsBlanks | src/shared.cc:114-161 | stripping leaves the middle part without blanks at either end, and cuts only blanks |
| PluginOutput.OneLineOutput | src/utils.cc:384-580 | a single line gives the text before its first bar and the performance data after it, both stripped |
| PluginOutput.WholeOutput | src/utils.cc:384-580 | first line, long text, and performance data of a whole output, put together from three places |
| PluginOutput.LinesOfEscapedText | src/utils.cc:445-451 | the splitter undoes escapes a second time: the lines of an escaped text are those of the text iff it has no backslash followed by n |
| PluginOutput.TakeLine | src/utils.cc:440-534 | one step of the shifting scan: a line is cut off and exactly the rest remains |
| PluginOutput.HandleLine | src/utils.cc:467-522 | what one line adds to short output, long output and performance data |
| PluginOutput.GatherLines | src/utils.cc:440-535 | the loop over the shifting buffer ends and gathers every line of the text once |
| PluginOutput.GatheredParts | src/utils.cc:440-535 | long output is the newline-join of lines 2 onwards up to the first with a bar, cut there; performance data is what follows the bars and all later lines |
| PluginOutput.PlainTextComesThrough | src/utils.cc:384-580 | for text without backslashes these are the parts returned, the long output escaped on request |
| PluginOutput.EscapedTextComesThrough | src/utils.cc:384-580 | a text without backslash followed by n that arrives escaped comes out by its own lines, and the long output unescapes to the joined lines |
| PluginOutput.ParseCheckOutput | src/utils.cc:384-580 | for every terminated buffer, the null pointer included, the three parts are those of its text |

## Left out

- Logging, macros, status data, performance data files, event handlers, obsessing, signals, downtime and comment lists:
  output of the engine that feeds nothing back into the modelled state. The event broker is an arbitrary answer to
  each notification.
- TimePeriods.GetNextValidTimePerTimeperiod: the first allowed instant is claimed for periods whose excluded periods
  have no exclusions of their own; nested exclusions are covered for termination, lower bound and restored lists only,
  because there an excluded period takes away times depending on the time the search stands at.
- TimePeriods.CheckTimeAgainstPeriod: a range that starts at 24:00 is set aside, being empty and yet offering the
  first instant of the next day.
- TimePeriods.GetNextInvalidTimePerTimeperiod: for a period with exclusions of its own only termination, the lower
  bound and the restored lists are stated.
- Calendar.CalculateTimeFromDayOfMonth: the code leaves hour, minute and second unset for negative days; the model
  takes midnight. Days before 1 January of year 0 and month numbers out of range are outside the calendar model.
- Calendar.CivilRoundTrip: time_t is an unbounded integer, so there is no overflow; NO_TIME is the value -1 as in the
  source, and times asked for are not negative.
- TimeZones.Zone.AddRoundDaysIsCalendarDays: a zone is any assignment of instants to wall clock readings whose
  midnights stay within one hour of a fixed offset and whose clock shows midnight once a day. The TZ variable and the
  tables of libc are not part of this model.
- DateRanges.DaterangeToTime: the source compares an unsigned skip interval; the model takes skip intervals of 0 or
  more.
- DateRangeMeanings.MonthDayCovers: for days up to 365, as the other MonthDay lemmas.
- DateRangeMeanings.MonthDateCoversExactly: for days counted from the beginning of the month, and an end date that does
  not lie before the start date; round the end of the year for dates that exist every year.
- DateRangeMeanings.WeekDayCovers: for weekday offsets that stay in the month, as MonthWeekDayAcrossYearsCovers.
- Dependencies.CheckDependencies: acyclicity is required, which the engine checks when it reads its configuration; the
  helpers that check it are not part of this model.
- CheckScheduling.EventQueue.ScheduleCheck: other kinds of events, moving of checks out of the way by the checks
  module, and the handling of clock changes are not part of this model.
- Flapping.FlapObject.RecordState: reading back retained histories.
- Escalations.NotificationList.CreateNotificationList: whether a listed contact is notified (its own options and
  periods) is an arbitrary number of notified contacts in `Notifications`.
- ServiceChecks.HandleAsyncServiceCheckResult: check times, latency, rescheduling, stalking and the launch of host
  checks. The outcome of an on-demand host check and the decision of flap detection are arbitrary inputs; what the
  latter sends about the host of the service is an event of the host's own run.
- HostChecks.HandleAsyncHostCheckResult: likewise; the states serial checks of parents return are arbitrary inputs.
- ServiceRuns.OneRecoveryPerProblem: two recoveries the first of which was made at an end of flapping may follow each
  other without a problem between them (`ServiceRecoveries.RecoverySentTwice`).
- HostRuns.OneRecoveryPerProblem: as for services (`HostRecoveries.RecoverySentTwice`).
- ServiceRuns.RecoveryNumbersInRuns: with a broker that stops attempts or an option that raises the number the statement on
  numbers is false, since the number then grows between problem and recovery (`Notifications.WhatAnAttemptCounts`).
- ServiceRecoveries.DueRecoveryIsRetried: for results without a notice of flapping, which counts as one of the other
  notifications of `ServiceRecoveries.OtherKindsSwallowDueRecovery`.
- TimePeriods.GetNextValidTime: for a period with exclusions it is not stated whether the search finds an instant that is
  more than a year ahead but still on the day on which that year ends; that depends on where its last round begins.
- ExclusionMeanings.ExceptionTakesAway: for exceptions whose span has a start; spans that are open at the start have no
  meaning stated.
- PluginOutput.ParseCheckOutput: all three parts are asked for; strtok, my_strtok and strip are read as functions on
  texts.
- Callback lists of event broker modules, retention files, configuration parsing, statistics tools and the XML writers
  would add only easy members.
