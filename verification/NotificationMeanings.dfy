/** What one attempt to notify comes to and what it leaves behind, field by field. */
module NotificationMeanings {
  import opened MonitoredObjects
  import opened Notifications

  // ----- which attempts are viable -----

  /** Notifications are switched on, and the time lies in the notification period. */
  predicate SwitchedOn(x: Circumstances) {
    x.enabled && x.inPeriod && x.notificationsEnabled
  }

  /** Neither the object nor, for a service, its host is in downtime. */
  predicate InService(c: Config, x: Circumstances) {
    !x.downtime && !(c.isService && x.hostDowntime)
  }

  /** A problem that is hard, unacknowledged and of interest, neither masked by flapping, downtime, dependencies or the
      host, nor too early: the first time because of its delay, later because of the interval. */
  predicate ProblemGoesOut(c: Config, s: Status, a: Alert, x: Circumstances) {
    && SwitchedOn(x) && InService(c, x) && !x.flapping && x.dependenciesOk && (c.isService ==> x.hostUp)
    && s.hard && !s.acknowledged && s.currentState in c.notifyOn && !a.noMoreNotifications
    && (a.number == 0 ==>
          x.time >= c.firstNotificationDelay + if a.initialNotifTime == 0 then x.time else a.initialNotifTime)
    && (a.nextNotification <= x.time || (c.isService && c.isVolatile))
  }

  /** A hard recovery of a problem somebody was told about, with recoveries of interest and, if it is still due, its
      delay over. */
  predicate RecoveryGoesOut(c: Config, s: Status, a: Alert, x: Circumstances) {
    && SwitchedOn(x) && InService(c, x) && !x.flapping && x.dependenciesOk
    && s.hard && !s.acknowledged && OK in c.notifyOn && a.notifiedOn != {}
    && (!a.recoveryBeenSent ==>
          x.time >= c.recoveryNotificationDelay + if a.initialNotifTime == 0 then x.time else a.initialNotifTime)
  }

  lemma ProblemAttemptIsViable(c: Config, s: Status, a: Alert, x: Circumstances)
    requires s.currentState != OK
    ensures Notify(c, s, a, x, Normal, NONE).1.outcome.NotViable? <==> !ProblemGoesOut(c, s, a, x)
  {
  }

  lemma RecoveryAttemptIsViable(c: Config, s: Status, a: Alert, x: Circumstances)
    requires s.currentState == OK && NumbersHold(a)
    ensures Notify(c, s, a, x, Normal, NONE).1.outcome.NotViable? <==> !RecoveryGoesOut(c, s, a, x)
  {
  }

  /** The other kinds look at the state for an acknowledgement only, at the settings of the object for flapping and
      downtime only, and downtime itself stops all but acknowledgements. */
  lemma OtherAttemptIsViable(c: Config, s: Status, a: Alert, x: Circumstances, kind: Kind, options: Options)
    requires kind != Normal && !options.forced
    ensures Notify(c, s, a, x, kind, options).1.outcome.NotViable? <==>
      !(SwitchedOn(x)
        && (kind == Acknowledgement ==> s.currentState != OK)
        && (kind == Flapping ==> c.notifyOnFlapping)
        && (kind == Downtime ==> c.notifyOnDowntime && !x.downtime)
        && (kind == Custom || kind == Flapping ==> InService(c, x)))
  {
  }

  /** A forced attempt is always viable. */
  lemma ForcedAttemptIsViable(c: Config, s: Status, a: Alert, x: Circumstances, kind: Kind, options: Options)
    requires options.forced
    ensures !Notify(c, s, a, x, kind, options).1.outcome.NotViable?
  {
  }

  // ----- what an attempt leaves behind -----

  /** A contact was told. */
  predicate Told(e: Entry) { e.outcome.Reached? && e.outcome.notified > 0 }

  /** What a normal attempt leaves behind. Only one that told a contact sets the times of the notifications and the
      flags; one the broker stopped still raises the number. Outside the period an attempt sets the next time. */
  lemma NormalAttemptLeaves(c: Config, s: Status, a: Alert, x: Circumstances)
    ensures var (after, entry) := Notify(c, s, a, x, Normal, NONE);
      && entry.kind == Normal && entry.time == x.time && entry.state == s.currentState
      && (entry.outcome.Stopped? ==> x.broker != Proceed)
      && (entry.outcome.Reached? ==> x.broker == Proceed)
      && (entry.outcome.Reached? ==> entry.outcome.notified == if x.contacts then x.notified else 0)
      && entry.number == (if entry.outcome.NotViable? then a.number else a.number + 1)
      && after.number == (if Told(entry) || entry.outcome.Stopped? then a.number + 1 else a.number)
      && after.notifiedOn ==
           (if Told(entry) && s.currentState != OK then a.notifiedOn + {s.currentState} else a.notifiedOn)
      && after.recoveryBeenSent == (a.recoveryBeenSent || (s.currentState == OK && entry.outcome.Reached?))
      && after.lastNotification == (if Told(entry) then x.time else a.lastNotification)
      && after.noMoreNotifications == (if Told(entry) then x.noMore else a.noMoreNotifications)
      && after.nextNotification ==
           (if Told(entry) then x.nextTime
            else if x.enabled && !x.inPeriod then
              if x.nextValidTime != 0 then x.nextValidTime else x.time + 365 * 86400
            else a.nextNotification)
  {
  }

  /** The delay starts to count with the first attempt that reaches its test. */
  lemma DelayStartsToCount(c: Config, s: Status, a: Alert, x: Circumstances)
    ensures var after := Notify(c, s, a, x, Normal, NONE).0;
      var tested := SwitchedOn(x) && s.hard && !s.acknowledged && x.dependenciesOk && s.currentState in c.notifyOn
                    && (s.currentState == OK ==> a.notifiedOn != {})
                    && (a.number == 0 || (s.currentState == OK && !a.recoveryBeenSent));
      after.initialNotifTime == if tested && a.initialNotifTime == 0 then x.time else a.initialNotifTime
  {
  }

  /** The other kinds leave flags and times alone; one that reaches its contacts in the OK state counts as the
      recovery notification, and the number goes up only on request, unless the list of contacts is empty. */
  lemma OtherAttemptLeaves(c: Config, s: Status, a: Alert, x: Circumstances, kind: Kind, options: Options)
    requires kind != Normal
    ensures var (after, entry) := Notify(c, s, a, x, kind, options);
      var counted := options.increment && (entry.outcome.Stopped? || (entry.outcome.Reached? && x.contacts));
      && (entry.outcome.Reached? ==> x.broker == Proceed) && (entry.outcome.Stopped? ==> x.broker != Proceed)
      && after == a.(number := if counted then a.number + 1 else a.number,
                     recoveryBeenSent := a.recoveryBeenSent || (s.currentState == OK && entry.outcome.Reached?))
  {
  }

  // ----- notices of flapping -----

  /** A change of flapping is announced once; its end makes a normal attempt besides if a recovery is owed and the state
      is OK. Nothing else is attempted. */
  lemma NoticesOfFlapping(c: Config, s: Status, a: Alert, flap: FlapChange)
    ensures var (after, log) := FlapNotices(c, s, a, flap);
      && (flap.FlapSteady? ==> log == [] && after == a)
      && (!flap.FlapSteady? ==>
            var recovers := flap.FlapEnds? && flap.owed && s.currentState == OK;
            && |log| == (if recovers then 2 else 1) && log[0].kind == Flapping && log[0].time == flap.notice.time
            && (recovers ==> log[1].kind == Normal && log[1].time == flap.recovery.time && log[1].atFlapEnd))
  {
  }
}
