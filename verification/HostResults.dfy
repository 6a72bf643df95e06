/** What one check result makes of a host, in terms of the result and of its settings: the state, whether it is hard,
    the attempt, and the notifications that are attempted. */
module HostResults {
  import opened MonitoredObjects
  import opened Notifications
  import opened NotificationRecords
  import opened NotificationMeanings
  import opened HostChecks
  import opened HostRuns

  /** Which results are discarded, and which state the others lead to. */
  lemma StateOfResult(c: Config, s: HostState, e: Event)
    requires e.Check? && ValidEvent(e)
    ensures var r := e.result;
      if (r.passive && !r.passiveAccepted) || (r.freshnessCheck && r.alreadyFresh) then Step(c, s, e) == (s, [])
      else Step(c, s, e).0.progress.currentState ==
           if ReportsUp(r) then UP else if r.passive && !r.translatePassives then r.returnCode else e.verdict
  {
    hide HandleResult;
    ReportedState(c, s, e.result, e.verdict, e.nextEvent, e.nextProblem);
  }

  /** Launching an active check counts: it is the first attempt after a hard state and while the host is UP, and one
      more attempt, up to the last, while a problem is soft. */
  lemma LaunchCounts(c: Config, s: HostState)
    ensures var (p, after) := (s.progress, Step(c, s, Launch).0);
      && after == s.(progress := p.(currentAttempt := after.progress.currentAttempt))
      && (p.hard || p.currentState == UP ==> after.progress.currentAttempt == 1)
      && (!p.hard && p.currentState != UP ==>
            after.progress.currentAttempt ==
              p.currentAttempt + if p.currentAttempt < c.maxAttempts then 1 else 0)
  {
  }

  /** The attempt a result is judged at. An active check was counted when it was launched; a passive result that is
      treated as soft counts as a further attempt, or as the first one after a hard state. */
  function AttemptSeen(max: nat, p: HostProgress, r: HostResult): int {
    if !(r.passive && r.passivesAreSoft) then p.currentAttempt
    else if p.hard then 1
    else if p.currentAttempt < max then p.currentAttempt + 1
    else p.currentAttempt
  }

  /** Attempt and kind of state after a result. Other passive results are final. A recovery from a soft problem is soft,
      the first failure is, unless it is the last attempt, and a further failure is hard at the first and at the last
      attempt. */
  lemma ProgressAfterResult(c: Config, s: HostState, r: HostResult, verdict: int, nextEvent: nat, nextProblem: nat)
    requires c.maxAttempts >= 1 && verdict != UP && Holds(c, s)
    ensures var (p, after) := (s.progress, HandleResult(c, s, r, verdict, nextEvent, nextProblem).0.progress);
      var (attempt, final) := (AttemptSeen(c.maxAttempts, p, r), r.passive && !r.passivesAreSoft);
      && after.lastState == p.currentState
      && after.lastHardState == (if p.hard then p.currentState else p.lastHardState)
      && (after.hard <==>
            || final
            || (if ReportsUp(r) then p.hard || p.currentState == UP
                else if p.currentState == UP then c.maxAttempts == 1
                else attempt == c.maxAttempts || attempt == 1))
      && after.currentAttempt ==
           (if ReportsUp(r) then (if Changed(after) then 1 else attempt) else if final then 1 else attempt)
  {
    hide HostAlert, AckAfterChange, AlertAfterChange, IdsAfterChange, FlapNotices;
  }

  /** The state differs from the last one or from the last hard one. */
  predicate Changed(p: HostProgress) {
    p.currentState != p.lastState || p.currentState != p.lastHardState
  }

  /** The notification fields with which a result that led there finds the host: a change starts the times over, and a
      recovery becomes due. */
  function WhenCaused(p: HostProgress, a: Alert): Alert {
    if !Changed(p) then a
    else if p.currentState != UP then a.(lastNotification := 0, nextNotification := 0, noMoreNotifications := false)
    else a.(lastNotification := 0, nextNotification := 0, noMoreNotifications := false,
            recoveryBeenSent := false, initialNotifTime := 0)
  }

  /** What handle_host_state attempts. */
  lemma HostAttempts(c: Config, p: HostProgress, ack: Acknowledged, a: Alert, x: Circumstances)
    requires NumbersHold(a)
    ensures var (after, log) := HostAlert(c, p, ack, a, x);
      var attempts := p.hard && (p.currentState == UP ==> !a.recoveryBeenSent);
      var status := Status(p.currentState, true, ack.flag);
      && |log| == (if attempts then 1 else 0)
      && (attempts ==>
            && log[0].kind == Normal && log[0].state == p.currentState
            && (log[0].outcome.NotViable? <==>
                  if p.currentState == UP then !RecoveryGoesOut(c, status, a, x) else !ProblemGoesOut(c, status, a, x)))
      && (!attempts ==> after == a)
  {
    hide Notify, RecoveryGoesOut, ProblemGoesOut;
    var status := Status(p.currentState, true, ack.flag);
    NormalAttemptLeaves(c, status, a, x);
    if p.currentState == UP {
      RecoveryAttemptIsViable(c, status, a, x);
    } else {
      ProblemAttemptIsViable(c, status, a, x);
    }
  }

  /** A soft UP state is a changed one, so the fields are those of WhenCaused. */
  lemma ProcessedChange(c: Config, s: HostState, r: HostResult, verdict: int)
    requires c.maxAttempts >= 1 && verdict != UP && Holds(c, s)
    ensures var p := ProcessedResult(c, s.progress, r, verdict);
      && AlertAfterChange(p, s.alert) == WhenCaused(p, s.alert) && NumbersHold(WhenCaused(p, s.alert))
      && (HostChanged(p) <==> Changed(p))
  {
    hide AdjustedAttempt;
  }

  /** The attempts a result makes: one about a hard problem, or about a hard UP state the recovery of which was not
      sent, and then the notice of flapping. */
  lemma AttemptsAfterResult(c: Config, s: HostState, r: HostResult, verdict: int, nextEvent: nat, nextProblem: nat)
    requires c.maxAttempts >= 1 && verdict != UP && Holds(c, s) && !Owed(r.flap)
    ensures var (after, log) := HandleResult(c, s, r, verdict, nextEvent, nextProblem);
      var (p, a) := (after.progress, WhenCaused(after.progress, s.alert));
      var attempts := p.hard && (p.currentState == UP ==> !a.recoveryBeenSent);
      var status := Status(p.currentState, true, after.ack.flag);
      && |log| == (if attempts then 1 else 0) + (if r.flap.FlapSteady? then 0 else 1)
      && (attempts ==>
            && log[0].kind == Normal && log[0].state == p.currentState
            && (log[0].outcome.NotViable? <==>
                  if p.currentState == UP then !RecoveryGoesOut(c, status, a, r.circumstances)
                  else !ProblemGoesOut(c, status, a, r.circumstances)))
      && (!attempts && p.currentState != UP ==> after.alert == a)
  {
    hide RecoveryGoesOut, ProblemGoesOut, FlapNotices, ProcessedResult, HostAlert, HostChanged, AckAfterChange;
    hide IdsAfterChange, AlertAfterChange, NumbersHold;
    ProcessedChange(c, s, r, verdict);
    var p := ProcessedResult(c, s.progress, r, verdict);
    var (caused, log) := Caused(c, HostState(p, s.ack, s.alert, s.ids), r.circumstances, nextEvent, nextProblem);
    HostAttempts(c, p, caused.ack, WhenCaused(p, s.alert), r.circumstances);
    NoticesOfFlapping(c, StatusOf(caused), caused.alert, r.flap);
    if p.currentState != UP {
      ProblemNotices(c, StatusOf(caused), caused.alert, r.flap);
    }
  }

  lemma ProblemNotices(c: Config, s: Status, a: Alert, flap: FlapChange)
    requires s.currentState != UP
    ensures FlapNotices(c, s, a, flap).0 == a
  {
  }
}
