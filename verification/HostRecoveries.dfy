/** Recoveries of a host over runs: delayed ones, lost ones and repeated ones, and what a recovery does to the delay
    before the next problem is notified. */
module HostRecoveries {
  import opened MonitoredObjects
  import opened Notifications
  import opened NotificationRecords
  import opened HostChecks
  import opened HostRuns

  // ----- delayed recoveries -----

  /** A recovery is due: the host is UP again, people were told about the problem, and the recovery was not sent. */
  predicate RecoveryDue(s: HostState) {
    s.progress.currentState == UP && s.progress.hard && s.alert.notifiedOn != {} && !s.alert.recoveryBeenSent
  }

  /** An UP result that comes without a notice of flapping; such a notice is one of the other notifications. */
  predicate IsUpResult(e: Event) {
    e.Check? && ValidEvent(e) && !Discarded(e.result) && ResultState(e.result) == UP && e.result.flap.FlapSteady?
  }

  /** Nothing stands in the way of a recovery notification. */
  predicate ClearFor(c: Config, s: HostState, x: Circumstances) {
    && x.enabled && x.inPeriod && x.notificationsEnabled && x.dependenciesOk && UP in c.notifyOn
    && !x.flapping && !x.downtime && x.broker == Proceed
    && x.time >= RecoveryStart(s, x) + c.recoveryNotificationDelay
  }

  /** When a recovery is first attempted, and from when on its delay counts. */
  function RecoveryStart(s: HostState, x: Circumstances): int {
    if s.progress.currentState != UP || s.alert.initialNotifTime == 0 then x.time else s.alert.initialNotifTime
  }

  /** A due recovery is attempted again with every UP result: one result either sends it, which settles the matter,
      or leaves it due; and it is sent by the first result that nothing stands in the way of. */
  lemma DueRecoveryIsRetried(c: Config, s: HostState, e: Event)
    requires !c.isService && Holds(c, s) && RecoveryDue(s)
    requires IsUpResult(e)
    ensures var (after, log) := Step(c, s, e);
      && |log| == 1 && (RecoveryDue(after) <==> !IsRecovery(log[0]))
      && (IsRecovery(log[0]) ==> after.alert.number == 0 && after.alert.notifiedOn == {})
      && (ClearFor(c, s, e.result.circumstances) ==> IsRecovery(log[0]))
  {
    hide IdsAfterChange, ResultState, AdjustedAttempt;
  }

  // ----- recoveries that are lost -----

  /** Another notification while a recovery is due marks it as sent exactly if it is viable and the broker lets it pass;
      then UP results announce nothing any more, and unlike with a service number and flags stay. */
  lemma OtherKindsSwallowDueRecovery(c: Config, s: HostState, attempt: Event, e: Event)
    requires Holds(c, s) && RecoveryDue(s) && IsUpResult(e)
    requires attempt.Attempt? && attempt.kind != Normal
    ensures var between := Step(c, s, attempt).0;
      var (after, step) := Step(c, between, e);
      var passes := Passes(c, StatusOf(s), s.alert, attempt.circumstances, attempt.kind, attempt.options);
      && (between.alert.recoveryBeenSent <==> passes)
      && (passes ==> step == [] && after.alert == between.alert && after.alert.notifiedOn == s.alert.notifiedOn)
      && (!passes ==> RecoveryDue(between))
  {
    hide Viable, IdsAfterChange, ResultState, AdjustedAttempt;
  }

  // ----- recoveries that are sent twice -----

  /** The notification fields when the end of flapping has been announced while the host is UP. */
  function WhenFlappingEnds(c: Config, s: HostState, notice: Circumstances): Alert {
    s.alert.(recoveryBeenSent :=
      s.alert.recoveryBeenSent || Passes(c, StatusOf(s), s.alert, notice, Flapping, NONE))
  }

  /** Nothing but its delay stands in the way of a second recovery notification. */
  predicate OpenAgain(x: Circumstances) {
    && x.enabled && x.inPeriod && x.notificationsEnabled && x.dependenciesOk
    && !x.flapping && !x.downtime && x.broker == Proceed
  }

  /** The end of flapping on a host that is UP makes a recovery of its own, which leaves the flags set. */
  lemma FlappingEnds(c: Config, s: HostState, flap: FlapChange)
    requires !c.isService && Holds(c, s) && s.progress.currentState == UP && s.progress.hard && Owed(flap)
    ensures var (after, log) := Step(c, s, Flap(flap));
      var sent := Passes(c, StatusOf(s), WhenFlappingEnds(c, s, flap.notice), flap.recovery, Normal, NONE);
      && |log| == 2 && log[0].kind == Flapping && log[1].kind == Normal && (IsRecovery(log[1]) <==> sent)
      && log[1].atFlapEnd && !IsProblem(log[1])
      && after == s.(alert := after.alert) && after.alert.notifiedOn == s.alert.notifiedOn
      && NumbersHold(after.alert)
  {
    var noticed := Notify(c, StatusOf(s), s.alert, flap.notice, Flapping, NONE).0;
    assert noticed == WhenFlappingEnds(c, s, flap.notice);
    FlapNoticesFollow(c, StatusOf(s), s.alert, flap);
  }

  /** A soft problem of a host whose flags are still set: the problem itself is notified to nobody, ... */
  lemma SoftProblem(c: Config, s: HostState, e: Event)
    requires c.maxAttempts > 1 && s.progress.currentState == UP && s.progress.hard && NumbersHold(s.alert)
    requires IsFailure(e) && e.result.flap.FlapSteady?
    ensures var (after, log) := Step(c, s, e);
      && log == [] && after.progress.currentState != UP && !after.progress.hard && after.progress.lastHardState == UP
      && after.alert.notifiedOn == s.alert.notifiedOn && after.alert.number == s.alert.number
  {
    hide Notify, IdsAfterChange, AckAfterChange, ResultState, AdjustedAttempt;
  }

  /** ... its soft end makes a recovery due, ... */
  lemma SoftRecovery(c: Config, s: HostState, e: Event)
    requires s.progress.currentState != UP && !s.progress.hard && s.progress.lastHardState == UP && NumbersHold(s.alert)
    requires IsUpResult(e) && !Final(e.result)
    ensures var (after, log) := Step(c, s, e);
      && log == [] && after.progress.currentState == UP && !after.progress.hard && after.progress.lastHardState == UP
      && after.alert == s.alert.(recoveryBeenSent := false, initialNotifTime := 0,
           lastNotification := 0, nextNotification := 0, noMoreNotifications := false)
  {
    hide Notify, IdsAfterChange, AckAfterChange, ResultState, AdjustedAttempt;
  }

  /** ... and the next UP result announces it. */
  lemma HardAgain(c: Config, s: HostState, e: Event)
    requires !c.isService && s.progress.currentState == UP && !s.progress.hard && s.progress.lastHardState == UP
    requires !s.ack.flag && s.alert.notifiedOn != {} && NumbersHold(s.alert)
    requires !s.alert.recoveryBeenSent && s.alert.initialNotifTime == 0 && IsUpResult(e)
    ensures var log := Step(c, s, e).1;
      && |log| == 1 && !IsProblem(log[0])
      && (IsRecovery(log[0]) <==>
            UP in c.notifyOn && OpenAgain(e.result.circumstances) && c.recoveryNotificationDelay <= 0)
  {
    hide IdsAfterChange, ResultState, AdjustedAttempt;
  }

  /** A host that is UP with its flags set stops flapping with a recovery owed, has a soft problem and recovers from it:
      two recoveries go out for one problem exactly if the attempt at the end of flapping is viable and passes the
      broker, recoveries are not delayed, and nothing stands in the way when the host is hard again. */
  lemma RecoverySentTwice(c: Config, s: HostState, flap: FlapChange, failure: Event, soft: Event, hard: Event)
    requires !c.isService && c.maxAttempts > 1 && Holds(c, s)
    requires s.progress.currentState == UP && s.progress.hard && s.alert.notifiedOn != {} && Owed(flap)
    requires IsFailure(failure) && failure.result.flap.FlapSteady?
    requires IsUpResult(soft) && !Final(soft.result) && IsUpResult(hard)
    ensures var log := Run(c, s, [Flap(flap), failure, soft, hard]).1;
      var twice := Passes(c, StatusOf(s), WhenFlappingEnds(c, s, flap.notice), flap.recovery, Normal, NONE)
                   && OpenAgain(hard.result.circumstances) && c.recoveryNotificationDelay <= 0;
      && |log| == 3 && (IsRecovery(log[1]) && IsRecovery(log[2]) <==> twice)
      && log[1].atFlapEnd && !IsProblem(log[1]) && !IsProblem(log[2])
  {
    hide Step;
    FlappingEnds(c, s, flap);
    var (s1, l1) := Step(c, s, Flap(flap));
    StepFollows(c, s, Flap(flap));
    SoftProblem(c, s1, failure);
    StepFollows(c, s1, failure);
    var (s2, l2) := Step(c, s1, failure);
    SoftRecovery(c, s2, soft);
    StepFollows(c, s2, soft);
    var (s3, l3) := Step(c, s2, soft);
    HardAgain(c, s3, hard);
    var l4 := Step(c, s3, hard).1;
    FourSteps(c, s, Flap(flap), failure, soft, hard);
    var log := l1 + l4;
    assert l1 + l2 + l3 + l4 == log;
    assert log[..2] == l1 && log[2] == l4[0];
  }

  lemma FourSteps(c: Config, s: HostState, e1: Event, e2: Event, e3: Event, e4: Event)
    ensures var (s1, l1) := Step(c, s, e1);
      var (s2, l2) := Step(c, s1, e2);
      var (s3, l3) := Step(c, s2, e3);
      var (s4, l4) := Step(c, s3, e4);
      Run(c, s, [e1, e2, e3, e4]) == (s4, l1 + l2 + l3 + l4)
  {
    hide Step, Run;
    OneStep(c, s, e1);
    LastStep(c, s, [e1], e2);
    LastStep(c, s, [e1, e2], e3);
    LastStep(c, s, [e1, e2, e3], e4);
    assert [e1] + [e2] == [e1, e2];
    assert [e1, e2] + [e3] == [e1, e2, e3];
    assert [e1, e2, e3] + [e4] == [e1, e2, e3, e4];
  }

  lemma OneStep(c: Config, s: HostState, e: Event)
    ensures Run(c, s, [e]) == Step(c, s, e)
  {
    hide Step;
    var none: seq<Event> := [];
    LastStep(c, s, none, e);
    assert none + [e] == [e];
    assert Run(c, s, none).1 + Step(c, s, e).1 == Step(c, s, e).1;
  }

  lemma LastStep(c: Config, s: HostState, events: seq<Event>, e: Event)
    ensures var (before, log) := Run(c, s, events);
      var (after, step) := Step(c, before, e);
      Run(c, s, events + [e]) == (after, log + step)
  {
    hide Step;
    assert (events + [e])[..|events|] == events;
  }

  // ----- the delay of the first notification -----

  /** An UP result announces a recovery: the problem that was notified is over for good, or its recovery is due. */
  predicate Recovers(s: HostState) {
    s.progress.hard && s.alert.notifiedOn != {} && (s.progress.currentState != UP || !s.alert.recoveryBeenSent)
  }

  /** A result that makes the host a hard problem at once. */
  predicate HardAtOnce(c: Config, e: Event) {
    && e.Check? && ValidEvent(e) && !Discarded(e.result) && e.result.flap.FlapSteady?
    && ResultState(e.result) != UP && (Final(e.result) || c.maxAttempts == 1)
  }

  /** The delay of the next problem counts from the recovery of the last one. When a recovery was sent, the time it was
      first attempted at is kept; so the first notification of a problem that is hard at once waits for the delay
      exactly as long as it has not passed since that time. */
  lemma NextProblemCountsFromRecovery(c: Config, s: HostState, recovery: Event, problem: Event)
    requires !c.isService && c.maxAttempts >= 1 && c.firstNotificationDelay > 0 && Holds(c, s)
    requires Recovers(s) && IsUpResult(recovery) && ClearFor(c, s, recovery.result.circumstances)
    requires HardAtOnce(c, problem)
    ensures var between := Step(c, s, recovery).0;
      var (after, log) := Step(c, between, problem);
      var start := RecoveryStart(s, recovery.result.circumstances);
      var x := problem.result.circumstances;
      && between.alert.number == 0 && between.alert.initialNotifTime == start && |log| == 1
      && (Open(c, StatusOf(after), between.alert, x) && x.time >= 0 ==>
            (log[0].outcome.NotViable? <==> start == 0 || x.time < start + c.firstNotificationDelay))
  {
    hide Step;
    RecoveryKeepsStart(c, s, recovery);
    FirstProblem(c, Step(c, s, recovery).0, problem);
  }

  lemma RecoveryKeepsStart(c: Config, s: HostState, e: Event)
    requires !c.isService && Holds(c, s) && Recovers(s) && IsUpResult(e) && ClearFor(c, s, e.result.circumstances)
    ensures var after := Step(c, s, e).0;
      && after.progress.currentState == UP && after.progress.hard
      && after.alert.number == 0 && after.alert.notifiedOn == {}
      && after.alert.initialNotifTime == RecoveryStart(s, e.result.circumstances)
  {
    hide IdsAfterChange, ResultState, AdjustedAttempt;
  }

  /** An otherwise open attempt to notify about a new problem is held back by the delay exactly if the number was
      nought, and the delay counts from now or has not passed since the time that was left over. */
  predicate WaitsUnlessLeftover(c: Config, s: Status, a: Alert, x: Circumstances, entry: Entry) {
    Open(c, s, a.(noMoreNotifications := false), x) && x.time >= 0 ==>
      (entry.outcome.NotViable? <==>
         a.number == 0 && (a.initialNotifTime == 0 || x.time < a.initialNotifTime + c.firstNotificationDelay))
  }

  /** A problem that is hard at once: its first notification waits for the delay exactly if no number is left over and
      nothing is left over from which the delay could count, or it has not passed since then. */
  lemma FirstProblem(c: Config, s: HostState, e: Event)
    requires !c.isService && c.firstNotificationDelay > 0 && HardAtOnce(c, e)
    requires s.progress.currentState == UP && s.progress.hard && NumbersHold(s.alert)
    ensures var (after, log) := Step(c, s, e);
      |log| == 1 && WaitsUnlessLeftover(c, StatusOf(after), s.alert, e.result.circumstances, log[0])
  {
    hide IdsAfterChange, ResultState, AdjustedAttempt;
  }

  // ----- problems that are retried -----

  /** Number, flags and start of the delay are the same. */
  predicate SameCount(a: Alert, b: Alert) {
    a.number == b.number && a.notifiedOn == b.notifiedOn && a.initialNotifTime == b.initialNotifTime
  }

  /** Failures that are still retried leave number, flags and start of the delay alone. */
  lemma {:induction false} RetriesKeepNumber(c: Config, s: HostState, failures: seq<Event>)
    requires c.maxAttempts >= 1 && s.progress.currentState == UP && s.progress.hard && NumbersHold(s.alert)
    requires |failures| < c.maxAttempts && forall i :: 0 <= i < |failures| ==> IsFailure(failures[i])
    ensures var (after, log) := Run(c, s, Rounds(failures));
      && Normals(log) == 0 && SameCount(s.alert, after.alert) && NumbersHold(after.alert)
      && (if failures == [] then after == s else !after.progress.hard && after.progress.lastHardState == UP)
  {
    hide Step, Prepared, Round;
    if failures != [] {
      var n := |failures| - 1;
      RetriesKeepNumber(c, s, failures[..n]);
      RetriesAreExact(c, s, failures);
      if n > 0 {
        RetriesAreExact(c, s, failures[..n]);
      } else {
        assert failures[..n] == [];
      }
      assert IsFailure(failures[n]);
      RunRound(c, s, Rounds(failures[..n]), failures[n]);
      SoftRound(c, Run(c, s, Rounds(failures[..n])).0, failures[n]);
    }
  }

  /** A round that leaves the host soft. */
  lemma SoftRound(c: Config, s: HostState, e: Event)
    requires IsFailure(e) && NumbersHold(s.alert) && !Step(c, Prepared(c, s, e), e).0.progress.hard
    ensures var after := Step(c, Prepared(c, s, e), e).0;
      && SameCount(s.alert, after.alert) && NumbersHold(after.alert)
      && after.progress.lastHardState == if s.progress.hard then s.progress.currentState else s.progress.lastHardState
  {
    hide Notify, FlapNotices, IdsAfterChange, AckAfterChange, ResultState, AdjustedAttempt;
    var ready := Prepared(c, s, e);
    var p := ProcessedResult(c, ready.progress, e.result, e.verdict);
    var caused := Caused(c, HostState(p, ready.ack, ready.alert, ready.ids), e.result.circumstances,
                         e.nextEvent, e.nextProblem).0;
    ProblemNotices(c, StatusOf(caused), caused.alert, e.result.flap);
  }

  /** While there is a problem, notices of flapping change nothing that counts. */
  lemma ProblemNotices(c: Config, s: Status, a: Alert, flap: FlapChange)
    requires s.currentState != UP
    ensures SameCount(a, FlapNotices(c, s, a, flap).0)
  {
  }

  /** The round that makes a problem hard attempts its first notification before anything else. */
  lemma HardRound(c: Config, s: HostState, e: Event)
    requires !c.isService && c.firstNotificationDelay > 0 && IsFailure(e) && NumbersHold(s.alert)
    requires s.progress.lastHardState == UP || s.progress.currentState == UP
    requires s.progress.currentState == UP || !s.progress.hard
    requires Step(c, Prepared(c, s, e), e).0.progress.hard
    ensures var (after, log) := Step(c, Prepared(c, s, e), e);
      log != [] && WaitsUnlessLeftover(c, StatusOf(after), s.alert, e.result.circumstances, log[0])
  {
    hide FlapNotices, IdsAfterChange, AckAfterChange, ResultState, AdjustedAttempt;
  }

  /** A problem that is retried until it is hard: number and start of the delay are those with which it began, and its
      first notification waits under the same condition as if it had been hard at once. */
  lemma RetriedProblem(c: Config, s: HostState, failures: seq<Event>)
    requires !c.isService && c.maxAttempts >= 1 && c.firstNotificationDelay > 0
    requires s.progress.currentState == UP && s.progress.hard && NumbersHold(s.alert)
    requires |failures| == c.maxAttempts && forall i :: 0 <= i < |failures| ==> IsFailure(failures[i])
    ensures var last := failures[|failures| - 1];
      var (before, quiet) := Run(c, s, Rounds(failures[..|failures| - 1]));
      var (after, step) := Step(c, Prepared(c, before, last), last);
      && Run(c, s, Rounds(failures)) == (after, quiet + step) && Normals(quiet) == 0
      && IsFailure(last) && step != []
      && WaitsUnlessLeftover(c, StatusOf(after), s.alert, last.result.circumstances, step[0])
  {
    hide Step, Prepared, Round, Open, Run;
    var n := |failures| - 1;
    assert IsFailure(failures[n]);
    var before := Run(c, s, Rounds(failures[..n])).0;
    RetriesKeepNumber(c, s, failures[..n]);
    RetriesAreExact(c, s, failures);
    RunRound(c, s, Rounds(failures[..n]), failures[n]);
    if n > 0 {
      RetriesAreExact(c, s, failures[..n]);
    }
    HardRound(c, before, failures[n]);
    var (after, step) := Step(c, Prepared(c, before, failures[n]), failures[n]);
    SameCountWaits(c, StatusOf(after), s.alert, before.alert, failures[n].result.circumstances, step[0]);
  }

  /** So the delay of a problem that is retried counts from the recovery of the last one, too. */
  lemma RetriedProblemCountsFromRecovery(c: Config, s: HostState, recovery: Event, failures: seq<Event>)
    requires !c.isService && c.maxAttempts >= 1 && c.firstNotificationDelay > 0 && Holds(c, s)
    requires Recovers(s) && IsUpResult(recovery) && ClearFor(c, s, recovery.result.circumstances)
    requires |failures| == c.maxAttempts && forall i :: 0 <= i < |failures| ==> IsFailure(failures[i])
    ensures var between := Step(c, s, recovery).0;
      var start := RecoveryStart(s, recovery.result.circumstances);
      var last := failures[|failures| - 1];
      var (before, quiet) := Run(c, between, Rounds(failures[..|failures| - 1]));
      var (after, step) := Step(c, Prepared(c, before, last), last);
      && Run(c, between, Rounds(failures)) == (after, quiet + step) && Normals(quiet) == 0
      && between.alert.number == 0 && between.alert.initialNotifTime == start
      && IsFailure(last) && step != []
      && (var x := last.result.circumstances;
          Open(c, StatusOf(after), between.alert.(noMoreNotifications := false), x) && x.time >= 0 ==>
            (step[0].outcome.NotViable? <==> start == 0 || x.time < start + c.firstNotificationDelay))
  {
    hide Step, Prepared, Round, Open, Run, Rounds;
    RecoveryKeepsStart(c, s, recovery);
    RetriedProblem(c, Step(c, s, recovery).0, failures);
  }

  lemma SameCountWaits(c: Config, s: Status, a: Alert, b: Alert, x: Circumstances, entry: Entry)
    requires SameCount(a, b)
    ensures WaitsUnlessLeftover(c, s, a, x, entry) == WaitsUnlessLeftover(c, s, b, x, entry)
  {
  }

  // ----- numbers that are left over -----

  /** The notification fields with which an UP result finds a host that was hard. */
  function WhenUp(s: HostState): Alert {
    if s.progress.currentState == UP then s.alert else
    s.alert.(recoveryBeenSent := false, initialNotifTime := 0, lastNotification := 0, nextNotification := 0,
             noMoreNotifications := false)
  }

  /** After an UP result on a hard host the number is nought exactly if it was, or a recovery is announced that is
      viable and passes the broker. */
  lemma LeftoverNumber(c: Config, s: HostState, e: Event)
    requires Holds(c, s) && s.progress.hard && IsUpResult(e)
    ensures var after := Step(c, s, e).0;
      && after.progress.currentState == UP && after.progress.hard
      && (after.alert.number == 0 <==>
            s.alert.number == 0 ||
            (Recovers(s) && Passes(c, Status(UP, true, false), WhenUp(s), e.result.circumstances, Normal, NONE)))
  {
    hide IdsAfterChange, ResultState, AdjustedAttempt;
  }

  // ----- one host that shows both -----

  /** A host that is checked actively, once or three times before it is hard, and notifies ten minutes late at first. */
  function Patient(maxAttempts: nat): Config {
    Eager().(isService := false, maxAttempts := maxAttempts, notifyOn := {UP, DOWN, UNREACHABLE},
             firstNotificationDelay := 600)
  }

  function Down(notifiedOn: set<int>): HostState {
    HostState(HostProgress(DOWN, DOWN, true, DOWN, 1), Acknowledged(false, NoAcknowledgement),
              Alert(1, notifiedOn, false, 1000, false, 1000, 4600), Ids(1, 0, 1, 0))
  }

  function Active(returnCode: int, time: int): Event {
    Check(HostResult(returnCode, true, false, true, false, false, true, false, false, false, FlapSteady, Clear(time)),
          DOWN, 2, 2)
  }

  /** A host without retries that waits ten minutes before it notifies, and never notifies about recoveries. */
  function Silent(): Config {
    Patient(1).(notifyOn := {DOWN, UNREACHABLE})
  }

  /** Down since 1000, it is notified about at 1600, and its recovery at 5000 is not; when it is down again at 9000 it
      is notified about at once, with number two. */
  lemma NotifiedWithLeftoverNumber()
    ensures var s1 := Step(Silent(), InitialHost(), Active(2, 1000));
      var s2 := Step(Silent(), s1.0, Active(2, 1600));
      var s3 := Step(Silent(), s2.0, Active(0, 5000));
      var s4 := Step(Silent(), s3.0, Active(2, 9000));
      && |s1.1| == |s2.1| == |s3.1| == |s4.1| == 1
      && s1.1[0].outcome == NotViable && s2.1[0].outcome == Reached(1) && s2.1[0].number == 1
      && s3.1[0].outcome == NotViable && s4.1[0].outcome == Reached(1) && s4.1[0].number == 2
  {
    var (s2, _) := Step(Silent(), Step(Silent(), InitialHost(), Active(2, 1000)).0, Active(2, 1600));
    assert s2 == Down({DOWN}).(alert := Alert(1, {DOWN}, true, 1000, false, 1600, 5200), ids := Ids(2, 0, 2, 0));
  }

  /** Down since 1000, it recovers at 5000 and is down again at 9000: the new problem is notified at once, although a
      first notification is to wait ten minutes. */
  lemma NotifiedWithoutDelay()
    ensures var recovered := Step(Patient(1), Down({DOWN}), Active(0, 5000)).0;
      var log := Step(Patient(1), recovered, Active(2, 9000)).1;
      Holds(Patient(1), Down({DOWN})) && |log| == 1 && log[0].outcome == Reached(1)
  {
    NextProblemCountsFromRecovery(Patient(1), Down({DOWN}), Active(0, 5000), Active(2, 9000));
  }

  /** It recovers at 5000 while it is flapping, so that nobody is told; at 6000 flapping ends and the recovery goes out;
      after a soft problem at 7000 it goes out again. */
  lemma RecoveredTwice()
    ensures var flapping := Active(0, 5000).result.(circumstances := Clear(5000).(flapping := true));
      var up := Step(Patient(3), Down({DOWN}), Check(flapping, DOWN, 2, 2)).0;
      var events := [Flap(FlapEnds(Clear(6000), true, Clear(6000))), Active(2, 7000), Active(0, 8000), Active(0, 9000)];
      var log := Run(Patient(3), up, events).1;
      |log| == 3 && IsRecovery(log[1]) && IsRecovery(log[2])
  {
    var flapping := Active(0, 5000).result.(circumstances := Clear(5000).(flapping := true));
    var up := Step(Patient(3), Down({DOWN}), Check(flapping, DOWN, 2, 2)).0;
    StepFollows(Patient(3), Down({DOWN}), Check(flapping, DOWN, 2, 2));
    RecoverySentTwice(Patient(3), up, FlapEnds(Clear(6000), true, Clear(6000)),
                      Active(2, 7000), Active(0, 8000), Active(0, 9000));
  }
}
