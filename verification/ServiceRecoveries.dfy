/** Recoveries of a service over runs: delayed ones, lost ones, repeated ones, and the delay before a problem is
    notified for the first time. */
module ServiceRecoveries {
  import opened MonitoredObjects
  import opened Notifications
  import opened NotificationRecords
  import opened ServiceChecks
  import opened ServiceRuns

  // ----- delayed recoveries -----

  /** A recovery is due: the service is OK again, people were told about the problem, and the recovery was not sent. */
  predicate RecoveryDue(s: ServiceState) {
    s.progress.currentState == OK && s.alert.notifiedOn != {} && !s.alert.recoveryBeenSent
  }

  /** An OK result that comes without a notice of flapping; such a notice is one of the other notifications below. */
  predicate IsOkResult(e: Event) {
    e.Check? && e.nextProblem >= 1 && !Discarded(e.result) && ResultState(e.result) == OK && e.result.flap.FlapSteady?
  }

  /** Nothing stands in the way of a recovery notification. */
  predicate ClearFor(c: Config, s: ServiceState, x: Circumstances) {
    && x.enabled && x.inPeriod && x.notificationsEnabled && x.dependenciesOk && OK in c.notifyOn
    && !x.flapping && !x.downtime && !x.hostDowntime && x.broker == Proceed
    && x.time >= DelayStart(StatusOf(s), s.alert, x) + c.recoveryNotificationDelay
  }

  /** A due recovery is attempted again with every OK result: one result either sends it, which settles the matter,
      or leaves it due; and it is sent by the first result that nothing stands in the way of. */
  lemma DueRecoveryIsRetried(c: Config, s: ServiceState, e: Event)
    requires c.maxAttempts >= 1 && Holds(c, s) && RecoveryDue(s) && IsOkResult(e)
    ensures var (after, log) := Step(c, s, e);
      && |log| == 1 && (RecoveryDue(after) <==> !IsRecovery(log[0]))
      && (IsRecovery(log[0]) ==> after.alert.number == 0 && after.alert.notifiedOn == {})
      && (ClearFor(c, s, e.result.circumstances) ==> IsRecovery(log[0]))
  {
    hide IdsAfterChange, RouteUp, ResultState, ProblemAlert, ProblemProgress;
    assert !HardStateChanged(c.maxAttempts, Received(c.maxAttempts, s.progress, OK));
  }

  /** Once no recovery is due, OK results attempt none: over any run of OK results a due recovery is sent at most
      once, and it has been sent exactly when it is no longer due. */
  lemma {:induction false} DueRecoveryIsSentOnce(c: Config, s: ServiceState, events: seq<Event>)
    requires c.maxAttempts >= 1 && Holds(c, s) && RecoveryDue(s)
    requires forall i :: 0 <= i < |events| ==> IsOkResult(events[i])
    ensures var (after, log) := Run(c, s, events);
      && Holds(c, after) && after.progress.currentState == OK && (!RecoveryDue(after) ==> after.alert.recoveryBeenSent)
      && (RecoveryDue(after) ==> |log| == |events| && forall i :: 0 <= i < |log| ==> !IsRecovery(log[i]))
      && (!RecoveryDue(after) ==>
            0 < |log| <= |events| && forall i :: 0 <= i < |log| ==> (IsRecovery(log[i]) <==> i == |log| - 1))
  {
    hide Step, Holds;
    if events != [] {
      var n := |events| - 1;
      DueRecoveryIsSentOnce(c, s, events[..n]);
      var (before, log) := Run(c, s, events[..n]);
      StepFollows(c, before, events[n]);
      if RecoveryDue(before) {
        DueRecoveryIsRetried(c, before, events[n]);
        OkResultStays(c, before, events[n]);
      } else {
        OkResultStays(c, before, events[n]);
      }
    }
  }

  /** A service that stays OK with its recovery sent attempts nothing. */
  lemma OkResultStays(c: Config, s: ServiceState, e: Event)
    requires c.maxAttempts >= 1 && Holds(c, s) && s.progress.currentState == OK && IsOkResult(e)
    ensures var (after, log) := Step(c, s, e);
      && after.progress.currentState == OK
      && (s.alert.recoveryBeenSent ==> log == [] && after.alert.recoveryBeenSent)
      && (!s.alert.recoveryBeenSent ==> |log| == 1 && (IsRecovery(log[0]) ==> after.alert.recoveryBeenSent))
  {
    hide IdsAfterChange, RouteUp, ResultState, ProblemAlert, ProblemProgress;
    assert !HardStateChanged(c.maxAttempts, Received(c.maxAttempts, s.progress, OK));
  }

  // ----- recoveries that are lost -----

  /** The promise has a hole: another notification while a recovery is due marks it as sent exactly if it is viable and
      the broker lets it pass, and then the next OK result drops number and flags without announcing the recovery. */
  lemma OtherKindsSwallowDueRecovery(c: Config, s: ServiceState, attempt: Event, e: Event)
    requires c.maxAttempts >= 1 && Holds(c, s) && RecoveryDue(s) && IsOkResult(e)
    requires attempt.Attempt? && attempt.kind != Normal
    ensures var (between, log) := Step(c, s, attempt);
      var (after, step) := Step(c, between, e);
      var passes := Passes(c, StatusOf(s), s.alert, attempt.circumstances, attempt.kind, attempt.options);
      && (between.alert.recoveryBeenSent <==> passes)
      && (passes ==> step == [] && after.alert.number == 0 && after.alert.notifiedOn == {})
      && (!passes ==> RecoveryDue(between))
  {
    hide Viable, IdsAfterChange, RouteUp, ResultState, ProblemAlert, ProblemProgress;
    var (between, log) := Step(c, s, attempt);
    assert !HardStateChanged(c.maxAttempts, Received(c.maxAttempts, s.progress, OK));
  }

  /** Every due recovery can be lost in this way: to a custom notification with every switch open. */
  lemma CustomNotificationSwallowsDueRecovery(c: Config, s: ServiceState, time: int, e: Event)
    requires c.maxAttempts >= 1 && Holds(c, s) && RecoveryDue(s) && IsOkResult(e)
    ensures var (between, _) := Step(c, s, Attempt(Custom, NONE, Clear(time)));
      var (after, step) := Step(c, between, e);
      step == [] && !RecoveryDue(after) && after.alert.notifiedOn == {}
  {
    hide Step;
    OtherKindsSwallowDueRecovery(c, s, Attempt(Custom, NONE, Clear(time)), e);
  }

  // ----- recoveries that are sent twice -----

  /** An OK result is a hard recovery of the service. */
  predicate HardRecovery(c: Config, s: ServiceState) {
    HardStateChanged(c.maxAttempts, Received(c.maxAttempts, s.progress, OK))
  }

  /** The notification fields when the end of flapping has been announced within a hard recovery. */
  function WhenFlappingEnds(c: Config, a: Alert, notice: Circumstances): Alert {
    a.(recoveryBeenSent := Passes(c, Status(OK, true, false), a, notice, Flapping, NONE), initialNotifTime := 0,
       lastNotification := 0, nextNotification := 0, noMoreNotifications := false)
  }

  /** Nothing stands in the way of a second recovery notification. */
  predicate OpenAgain(c: Config, x: Circumstances) {
    && x.enabled && x.inPeriod && x.notificationsEnabled && x.dependenciesOk
    && !x.flapping && !x.downtime && !x.hostDowntime && x.broker == Proceed
  }

  /** A hard recovery in which flapping ends with a recovery owed makes three attempts. Both normal ones are recoveries
      exactly if the one the end of flapping makes is viable and passes the broker, and nothing stands in the way of
      the handler's own; and no problem is notified between them. */
  lemma RecoverySentTwice(c: Config, s: ServiceState, r: CheckResult, nextEvent: nat, nextProblem: nat)
    requires c.isService && c.maxAttempts >= 1 && Holds(c, s)
    requires ResultState(r) == OK && HardRecovery(c, s) && Owed(r.flap)
    ensures var log := HandleResult(c, s, r, nextEvent, nextProblem).1;
      var due := WhenFlappingEnds(c, s.alert, r.flap.notice);
      var twice := Passes(c, Status(OK, true, false), due, r.flap.recovery, Normal, NONE)
                   && OpenAgain(c, r.circumstances);
      && |log| == 3 && log[0].kind == Flapping && log[1].kind == log[2].kind == Normal
      && (IsRecovery(log[1]) && IsRecovery(log[2]) <==> twice)
      && log[1].atFlapEnd && !IsProblem(log[0]) && !IsProblem(log[1]) && !IsProblem(log[2])
  {
    hide ResultState, RouteUp, IdsAfterChange, AckAfterChange, HardStateChanged, ProblemAlert, ProblemProgress;
    var ok := Status(OK, true, false);
    var p := Received(c.maxAttempts, s.progress, OK);
    var due := MadeDue(AlertAfterChange(c.maxAttempts, p, s.alert));
    TwoRecoveries(c, due, r.flap, r.circumstances);
    var log := Announced(c, ok, due, r.flap, r.circumstances).1;
    assert WhenFlappingEnds(c, due, r.flap.notice) == WhenFlappingEnds(c, s.alert, r.flap.notice);
    assert HandleResult(c, s, r, nextEvent, nextProblem).1 == log;
  }

  lemma TwoRecoveries(c: Config, a: Alert, flap: FlapChange, x: Circumstances)
    requires c.isService && NumbersHold(a) && Owed(flap)
    requires a == MadeDue(a).(lastNotification := 0, nextNotification := 0, noMoreNotifications := false)
    ensures var ok := Status(OK, true, false);
      var log := Announced(c, ok, a, flap, x).1;
      && |log| == 3 && log[0].kind == Flapping && log[1].kind == log[2].kind == Normal
      && log[1].atFlapEnd && !IsProblem(log[1]) && !IsProblem(log[2])
      && (IsRecovery(log[1]) && IsRecovery(log[2]) <==>
            Passes(c, ok, WhenFlappingEnds(c, a, flap.notice), flap.recovery, Normal, NONE) && OpenAgain(c, x))
  {
    var ok := Status(OK, true, false);
    var noticed := Notify(c, ok, a, flap.notice, Flapping, NONE).0;
    assert noticed == WhenFlappingEnds(c, a, flap.notice);
  }

  /** A critical service, notified about at 1000, starts flapping after that; when it recovers at 5000 it stops. */
  lemma RecoveredTwice()
    ensures var critical := ServiceState(Progress(CRITICAL, CRITICAL, true, CRITICAL, 3, false),
          Acknowledged(false, NoAcknowledgement),
          Alert(1, {CRITICAL}, false, 1000, false, 1000, 4600), Ids(1, 0, 1, 0));
      var recovered := CheckResult(0, true, false, true, false, false, true, false, true,
          FlapEnds(Clear(5000), true, Clear(5000)), Clear(5000));
      var log := HandleResult(Eager(), critical, recovered, 2, 2).1;
      Holds(Eager(), critical) && |log| == 3 && IsRecovery(log[1]) && IsRecovery(log[2])
  {
    var critical := ServiceState(Progress(CRITICAL, CRITICAL, true, CRITICAL, 3, false),
          Acknowledged(false, NoAcknowledgement),
          Alert(1, {CRITICAL}, false, 1000, false, 1000, 4600), Ids(1, 0, 1, 0));
    var recovered := CheckResult(0, true, false, true, false, false, true, false, true,
          FlapEnds(Clear(5000), true, Clear(5000)), Clear(5000));
    RecoverySentTwice(Eager(), critical, recovered, 2, 2);
  }

  // ----- the delay of the first notification -----

  /** The times of the attempts to notify about the problem the service is in. */
  function TimesAfter(times: set<int>, s: ServiceState, step: seq<Entry>): set<int> {
    if s.progress.currentState == OK then {} else times + set e | e in step && e.kind == Normal :: e.time
  }

  function ProblemTimes(c: Config, s: ServiceState, events: seq<Event>): set<int> {
    if events == [] then {} else
    var n := |events| - 1;
    var (after, step) := Step(c, Run(c, s, events[..n]).0, events[n]);
    TimesAfter(ProblemTimes(c, s, events[..n]), after, step)
  }

  /** Before anything is counted, the time the delay counts from is one of them; and once it is set, the problem is
      hard for good, so that its end will reset it. */
  predicate DelayHolds(c: Config, s: ServiceState, times: set<int>) {
    s.alert.number == 0 && s.alert.initialNotifTime != 0 ==>
      && s.progress.currentState != OK && s.progress.hard && s.progress.currentAttempt == c.maxAttempts
      && s.alert.initialNotifTime in times
  }

  /** The number was nought when the problem the service is in began, and only attempts about it have raised it
      since. */
  predicate BeganAtNought(c: Config, s: ServiceState, events: seq<Event>) {
    if events == [] then s.alert.number == 0 else
    var n := |events| - 1;
    var before := Run(c, s, events[..n]).0;
    NoughtAfter(BeganAtNought(c, s, events[..n]), before, Step(c, before, events[n]).0, events[n])
  }

  predicate NoughtAfter(nought: bool, before: ServiceState, after: ServiceState, e: Event) {
    if after.progress.currentState == OK then after.alert.number == 0
    else nought && (e.Attempt? ==> after.alert.number == before.alert.number)
  }

  /** The delay passed from one attempt about the problem to another. */
  predicate Waited(c: Config, times: set<int>) {
    exists t, u :: t in times && u in times && u >= t + c.firstNotificationDelay
  }

  /** A notification that reaches a contact with number one comes after the delay, counted from an attempt about this
      problem. */
  predicate Delayed(c: Config, e: Entry, times: set<int>) {
    IsProblem(e) && e.number == 1 ==> exists t :: t in times && e.time >= t + c.firstNotificationDelay
  }

  /** What is kept for a problem that began at nought: once its number is raised, the delay has passed. */
  predicate WaitHolds(c: Config, s: ServiceState, times: set<int>, nought: bool) {
    && DelayHolds(c, s, times)
    && (nought && s.alert.number > 0 ==> s.progress.currentState != OK && Waited(c, times))
  }

  /** A notification that reaches a contact in a problem that began at nought comes when the delay has passed. */
  predicate WellTimed(c: Config, e: Entry, times: set<int>, nought: bool) {
    Delayed(c, e, times) && (IsProblem(e) && nought ==> Waited(c, times))
  }

  lemma AnnouncedIsDelayed(c: Config, s: Status, a: Alert, flap: FlapChange, x: Circumstances)
    requires NumbersHold(a) && s.currentState != OK
    ensures var (after, log) := Announced(c, s, a, flap, x);
      && log != [] && log[|log| - 1].kind == Normal && log[|log| - 1].time == x.time
      && (after.number == 0 && after.initialNotifTime != 0 ==>
            a.number == 0 && after.initialNotifTime == if a.initialNotifTime == 0 then x.time else a.initialNotifTime)
      && (after.number > 0 ==> a.number > 0 || x.time >= DelayStart(s, a, x) + c.firstNotificationDelay)
      && (forall e :: e in log && IsProblem(e) ==> after.number > 0)
      && (forall e :: e in log && IsProblem(e) && e.number == 1 ==>
            a.number == 0 && e.time >= DelayStart(s, a, x) + c.firstNotificationDelay)
  {
    hide FlapNotices;
    FlapNoticesKeepDelay(c, s, a, flap);
    FlapNoticesFollow(c, s, a, flap);
  }

  lemma FlapNoticesKeepDelay(c: Config, s: Status, a: Alert, flap: FlapChange)
    requires NumbersHold(a)
    ensures var (after, log) := FlapNotices(c, s, a, flap);
      && a.number <= after.number
      && (s.currentState != OK || a.number == 0 ==> after.initialNotifTime == a.initialNotifTime)
      && (forall e :: e in log ==> !IsProblem(e))
  {
  }

  /** A problem at its last attempt is announced. */
  lemma ProblemAtLastAttempt(c: Config, s: ServiceState, r: CheckResult, nextEvent: nat, nextProblem: nat)
    requires c.maxAttempts >= 1 && Holds(c, s) && ResultState(r) != OK
    requires MaxedOut(c.maxAttempts, Received(c.maxAttempts, s.progress, ResultState(r)), RouteUp(r))
    ensures var (after, step) := HandleResult(c, s, r, nextEvent, nextProblem);
      var noted := Noted(c, s, ResultState(r), nextEvent, nextProblem);
      && (after.alert, step) == Announced(c, Status(ResultState(r), true, noted.ack.flag), noted.alert, r.flap,
                                          r.circumstances)
      && after.progress.currentState != OK && after.progress.hard && after.progress.currentAttempt == c.maxAttempts
      && noted.alert.number == s.alert.number && noted.alert.initialNotifTime == s.alert.initialNotifTime
      && NumbersHold(noted.alert)
  {
    hide ResultState, RouteUp, IdsAfterChange, AckAfterChange, Announced, OkAlert, FlapNotices;
  }

  /** One that is still retried is not. */
  lemma ProblemRetried(c: Config, s: ServiceState, r: CheckResult, nextEvent: nat, nextProblem: nat)
    requires c.maxAttempts >= 1 && Holds(c, s) && ResultState(r) != OK
    requires !MaxedOut(c.maxAttempts, Received(c.maxAttempts, s.progress, ResultState(r)), RouteUp(r))
    ensures var (after, step) := HandleResult(c, s, r, nextEvent, nextProblem);
      && after.alert.number == s.alert.number && after.alert.initialNotifTime == s.alert.initialNotifTime
      && after.progress.currentState != OK && (forall e :: e in step ==> !IsProblem(e))
      && (s.progress.hard ==> s.progress.currentState == OK || s.progress.currentAttempt < c.maxAttempts)
  {
    hide ResultState, RouteUp, IdsAfterChange, AckAfterChange, OkAlert, FlapNotices;
    var noted := Noted(c, s, ResultState(r), nextEvent, nextProblem);
    var acted := Acted(c, noted, RouteUp(r), r.flap, r.circumstances).0;
    FlapNoticesKeepDelay(c, StatusOf(acted), acted.alert, r.flap);
    ProblemNoticesKeepNumber(c, StatusOf(acted), acted.alert, r.flap);
  }

  /** A problem result: what has been set stays set, and what is sent has waited. */
  lemma ProblemIsDelayed(c: Config, s: ServiceState, r: CheckResult, nextEvent: nat, nextProblem: nat, times: set<int>,
                         nought: bool)
    requires c.maxAttempts >= 1 && Holds(c, s) && WaitHolds(c, s, times, nought) && ResultState(r) != OK
    ensures var (after, step) := HandleResult(c, s, r, nextEvent, nextProblem);
      var now := TimesAfter(times, after, step);
      WaitHolds(c, after, now, nought) && forall e :: e in step ==> WellTimed(c, e, now, nought)
  {
    hide HandleResult, ResultState, RouteUp, Received, MaxedOut, Noted, Announced, Holds, Waited;
    var (after, step) := HandleResult(c, s, r, nextEvent, nextProblem);
    var now := TimesAfter(times, after, step);
    WaitedStays(c, times, now);
    if MaxedOut(c.maxAttempts, Received(c.maxAttempts, s.progress, ResultState(r)), RouteUp(r)) {
      ProblemAtLastAttempt(c, s, r, nextEvent, nextProblem);
      var noted := Noted(c, s, ResultState(r), nextEvent, nextProblem);
      AnnouncedIsDelayed(c, Status(ResultState(r), true, noted.ack.flag), noted.alert, r.flap, r.circumstances);
      assert step[|step| - 1] in step && r.circumstances.time in now;
      var start := if s.alert.initialNotifTime == 0 then r.circumstances.time else s.alert.initialNotifTime;
      if s.alert.number == 0 && after.alert.number > 0 {
        WaitedFrom(c, now, start, r.circumstances.time);
      }
    } else {
      ProblemRetried(c, s, r, nextEvent, nextProblem);
    }
  }

  lemma WaitedStays(c: Config, times: set<int>, now: set<int>)
    ensures times <= now && Waited(c, times) ==> Waited(c, now)
  {
  }

  lemma WaitedFrom(c: Config, times: set<int>, t: int, u: int)
    requires t in times && u in times && u >= t + c.firstNotificationDelay
    ensures Waited(c, times)
  {
  }

  lemma ProblemNoticesKeepNumber(c: Config, s: Status, a: Alert, flap: FlapChange)
    requires s.currentState != OK
    ensures FlapNotices(c, s, a, flap).0.number == a.number
  {
  }

  /** An OK result leaves nothing that a later problem could count its delay from. */
  lemma OkForgetsDelay(c: Config, s: ServiceState, r: CheckResult, nextEvent: nat, nextProblem: nat, times: set<int>)
    requires c.maxAttempts >= 1 && Holds(c, s) && DelayHolds(c, s, times) && ResultState(r) == OK
    ensures var (after, step) := HandleResult(c, s, r, nextEvent, nextProblem);
      DelayHolds(c, after, {}) && forall e :: e in step ==> !IsProblem(e)
  {
    hide ResultState, RouteUp, IdsAfterChange, AckAfterChange, ProblemAlert, Notify, FlapNotices;
    var p := Received(c.maxAttempts, s.progress, OK);
    var a := AlertAfterChange(c.maxAttempts, p, s.alert);
    OkNotices(c, Status(OK, true, false), MadeDue(a), r.flap);
    var noticed := FlapNotices(c, Status(OK, true, false), MadeDue(a), r.flap).0;
    OkAttempt(c, Status(OK, true, false), noticed, r.circumstances);
    OkAttempt(c, Status(OK, p.hard && !StateChanged(p), false), a, r.circumstances);
    var reset := OkAlert(c, p, a, r.flap, r.circumstances).0;
    OkNotices(c, Status(OK, true, false), reset, r.flap);
  }

  lemma OkAttempt(c: Config, s: Status, a: Alert, x: Circumstances)
    requires s.currentState == OK && NumbersHold(a)
    ensures var (after, entry) := Notify(c, s, a, x, Normal, NONE);
      && !IsProblem(entry) && NumbersHold(after) && a.number <= after.number
      && (a.number == 0 ==> after.number == 0 && after.initialNotifTime == a.initialNotifTime)
  {
  }

  lemma OkNotices(c: Config, s: Status, a: Alert, flap: FlapChange)
    requires s.currentState == OK && NumbersHold(a)
    ensures var (after, log) := FlapNotices(c, s, a, flap);
      && (forall e :: e in log ==> !IsProblem(e)) && NumbersHold(after) && a.number <= after.number
      && (a.number == 0 ==> after.number == 0 && after.initialNotifTime == a.initialNotifTime)
  {
    hide Notify;
    FlapNoticesFollow(c, s, a, flap);
    FlapNoticesKeepDelay(c, s, a, flap);
  }

  lemma StepIsDelayed(c: Config, s: ServiceState, e: Event, times: set<int>, nought: bool)
    requires c.maxAttempts >= 1 && Holds(c, s) && ValidEvent(e) && WaitHolds(c, s, times, nought)
    ensures var (after, step) := Step(c, s, e);
      var now := TimesAfter(times, after, step);
      var still := NoughtAfter(nought, s, after, e);
      WaitHolds(c, after, now, still) && forall entry :: entry in step ==> WellTimed(c, entry, now, still)
  {
    hide HandleResult, FlapNotices, Waited;
    var (after, step) := Step(c, s, e);
    WaitedStays(c, times, TimesAfter(times, after, step));
    match e
    case Check(r, nextEvent, nextProblem) =>
      if !Discarded(r) {
        IdsAndAcknowledgements(c, s, r, nextEvent, nextProblem);
        if ResultState(r) == OK {
          OkForgetsDelay(c, s, r, nextEvent, nextProblem, times);
        } else {
          ProblemIsDelayed(c, s, r, nextEvent, nextProblem, times, nought);
        }
      }
    case Flap(flap) =>
      FlapNoticesFollow(c, StatusOf(s), s.alert, flap);
      FlapNoticesKeepDelay(c, StatusOf(s), s.alert, flap);
      if s.progress.currentState != OK {
        ProblemNoticesKeepNumber(c, StatusOf(s), s.alert, flap);
      }
    case Attempt(kind, options, x) => OtherKindsFollow(c, StatusOf(s), s.alert, x, kind, options);
    case Acknowledge(_) =>
  }

  /** In every run of a service, flapping included, every notification of a problem that began at nought comes when the
      delay has passed between attempts to notify about the same problem; and one with number one itself comes that
      much later than such an attempt. */
  lemma {:induction false} FirstNotificationIsDelayed(c: Config, events: seq<Event>)
    requires c.maxAttempts >= 1 && ValidEvents(events)
    ensures WaitHolds(c, Run(c, InitialService(), events).0, ProblemTimes(c, InitialService(), events),
                      BeganAtNought(c, InitialService(), events))
    ensures events != [] ==>
      var n := |events| - 1;
      forall e :: e in Step(c, Run(c, InitialService(), events[..n]).0, events[n]).1 ==>
        WellTimed(c, e, ProblemTimes(c, InitialService(), events), BeganAtNought(c, InitialService(), events))
  {
    hide Step, Holds, WaitHolds, WellTimed, TimesAfter, NoughtAfter;
    NothingToDelay(c);
    if events != [] {
      var n := |events| - 1;
      FirstNotificationIsDelayed(c, events[..n]);
      RunHolds(c, InitialService(), events[..n]);
      StepIsDelayed(c, Run(c, InitialService(), events[..n]).0, events[n],
                    ProblemTimes(c, InitialService(), events[..n]), BeganAtNought(c, InitialService(), events[..n]));
    }
  }

  lemma NothingToDelay(c: Config)
    requires c.maxAttempts >= 1
    ensures WaitHolds(c, InitialService(), {}, true) && Holds(c, InitialService())
    ensures BeganAtNought(c, InitialService(), [])
  {
  }

  // ----- problems that do not wait -----

  /** After an OK result the number is nought exactly if it was, or the recovery counts as sent; a hard recovery does so
      exactly if it is viable and passes the broker. */
  lemma LeftoverNumber(c: Config, s: ServiceState, e: Event)
    requires c.maxAttempts >= 1 && Holds(c, s) && IsOkResult(e)
    ensures var after := Step(c, s, e).0;
      && (after.alert.number == 0 <==> s.alert.number == 0 || after.alert.recoveryBeenSent)
      && (HardRecovery(c, s) ==>
            (after.alert.recoveryBeenSent <==>
               Passes(c, Status(OK, true, false), MadeDue(s.alert), e.result.circumstances, Normal, NONE)))
  {
    hide ResultState, RouteUp, IdsAfterChange, AckAfterChange, HardStateChanged, ProblemAlert, ProblemProgress;
  }

  /** Failures that are still retried leave number and start of the delay alone. */
  lemma {:induction false} RetriesKeepNumber(c: Config, s: ServiceState, events: seq<Event>)
    requires c.maxAttempts >= 1 && Holds(c, s) && s.progress.currentState == OK
    requires |events| < c.maxAttempts && Failures(events)
    ensures var (after, log) := Run(c, s, events);
      && log == [] && after.alert.number == s.alert.number && after.alert.notifiedOn == s.alert.notifiedOn
      && after.alert.initialNotifTime == s.alert.initialNotifTime
      && (events == [] || (!after.progress.hard && after.progress.lastHardState == OK))
  {
    hide Step, Holds;
    if events != [] {
      var n := |events| - 1;
      RetriesKeepNumber(c, s, events[..n]);
      OkIsFresh(c, s);
      RetriesAreExact(c, s, events);
      if n > 0 {
        RetriesAreExact(c, s, events[..n]);
      } else {
        assert events[..n] == [];
      }
      assert IsFailure(events[n]);
      SoftFailure(c, Run(c, s, events[..n]).0, events[n]);
    }
  }

  lemma SoftFailure(c: Config, s: ServiceState, e: Event)
    requires IsFailure(e) && !s.progress.hostProblemAtLastCheck && s.progress.lastHardState == OK
    requires s.progress.currentAttempt + (if s.progress.hard then 0 else 1) < c.maxAttempts
    ensures var (after, log) := Step(c, s, e);
      && log == [] && !after.progress.hard && after.progress.lastHardState == OK
      && after.alert.number == s.alert.number && after.alert.notifiedOn == s.alert.notifiedOn
      && after.alert.initialNotifTime == s.alert.initialNotifTime
  {
    hide Notify, IdsAfterChange, AckAfterChange, ResultState, RouteUp;
  }

  /** A problem that is retried until it is hard: its first notification waits exactly if the number was nought when the
      problem began. */
  lemma ProblemWaitsIfNought(c: Config, s: ServiceState, events: seq<Event>, times: set<int>)
    requires c.maxAttempts >= 1 && c.firstNotificationDelay > 0
    requires Holds(c, s) && DelayHolds(c, s, times) && s.progress.currentState == OK
    requires |events| == c.maxAttempts && Failures(events) && events[|events| - 1].result.flap.FlapSteady?
    ensures var (after, log) := Run(c, s, events);
      var x := events[|events| - 1].result.circumstances;
      && |log| == 1
      && (Open(c, StatusOf(after), s.alert.(noMoreNotifications := false), x) && x.time >= 0 ==>
            (log[0].outcome.NotViable? <==> s.alert.number == 0))
  {
    hide Step, Holds;
    var n := |events| - 1;
    var before := Run(c, s, events[..n]).0;
    RetriesKeepNumber(c, s, events[..n]);
    OkIsFresh(c, s);
    if n > 0 {
      RetriesAreExact(c, s, events[..n]);
    } else {
      assert events[..n] == [];
    }
    assert IsFailure(events[n]);
    LastRetry(c, before, events[n]);
    assert [] + Step(c, before, events[n]).1 == Step(c, before, events[n]).1;
  }

  lemma LastRetry(c: Config, s: ServiceState, e: Event)
    requires c.firstNotificationDelay > 0 && NumbersHold(s.alert) && IsFailure(e) && e.result.flap.FlapSteady?
    requires !s.progress.hostProblemAtLastCheck && s.progress.lastHardState == OK
    requires s.progress.currentAttempt + (if s.progress.hard then 0 else 1) == c.maxAttempts
    ensures var (after, log) := Step(c, s, e);
      var x := e.result.circumstances;
      && |log| == 1
      && (Open(c, StatusOf(after), s.alert.(noMoreNotifications := false), x) && x.time >= 0 ==>
            (log[0].outcome.NotViable? <==>
               s.alert.number == 0 &&
               (s.alert.initialNotifTime == 0 || x.time < s.alert.initialNotifTime + c.firstNotificationDelay)))
  {
    hide IdsAfterChange, AckAfterChange, ResultState, RouteUp;
  }

  // ----- a service whose second problem does not wait -----

  /** A service without retries that waits ten minutes before it notifies, and never notifies about recoveries. */
  function Silent(): Config {
    Eager().(maxAttempts := 1, notifyOn := {CRITICAL}, firstNotificationDelay := 600)
  }

  function Active(returnCode: int, time: int): Event {
    Check(CheckResult(returnCode, true, false, true, false, false, true, false, true, FlapSteady, Clear(time)), 1, 1)
  }

  /** Critical since 1000, it is notified about at 1600, and its recovery at 5000 is not; when it is critical again at
      9000 it is notified about at once, with number two. */
  lemma NotifiedWithoutDelay()
    ensures var s1 := Step(Silent(), InitialService(), Active(2, 1000));
      var s2 := Step(Silent(), s1.0, Active(2, 1600));
      var s3 := Step(Silent(), s2.0, Active(0, 5000));
      var s4 := Step(Silent(), s3.0, Active(2, 9000));
      && |s1.1| == |s2.1| == |s3.1| == |s4.1| == 1
      && s1.1[0].outcome == NotViable && s2.1[0].outcome == Reached(1) && s2.1[0].number == 1
      && s3.1[0].outcome == NotViable && s4.1[0].outcome == Reached(1) && s4.1[0].number == 2
  {
  }
}
