/** What one check result makes of a service, in terms of the result and of the state of its host: the state, whether it
    is hard, the attempt, and the notifications that are attempted. */
module ServiceResults {
  import opened MonitoredObjects
  import opened Notifications
  import opened NotificationRecords
  import opened NotificationMeanings
  import opened ServiceChecks
  import opened ServiceRuns

  /** Which results are discarded, and which state the others stand for. */
  lemma StateOfResult(c: Config, s: ServiceState, e: Event)
    requires c.maxAttempts >= 1 && Holds(c, s) && e.Check? && ValidEvent(e)
    ensures var r := e.result;
      if (r.passive && !r.passiveAccepted) || (r.freshnessCheck && r.alreadyFresh) then Step(c, s, e) == (s, [])
      else Step(c, s, e).0.progress.currentState ==
           if r.exitedOk && 0 <= r.returnCode <= 3 then r.returnCode else UNKNOWN
  {
    hide HandleResult, Holds;
    if !Discarded(e.result) {
      IdsAndAcknowledgements(c, s, e.result, e.nextEvent, e.nextProblem);
    }
  }

  /** The host was found up: by an on-demand check if host checking is aggressive, and by its last state otherwise. */
  predicate HostFoundUp(r: CheckResult) {
    (r.aggressive && r.checkedRouteUp) || (!r.aggressive && r.hostUp)
  }

  /** The attempt a problem result is: a soft problem counts on, or starts over with the host back. */
  function NextAttempt(p: Progress, r: CheckResult): int {
    if p.hard then p.currentAttempt
    else if HostFoundUp(r) && p.hostProblemAtLastCheck then 1
    else p.currentAttempt + 1
  }

  lemma ProblemProgressIs(max: nat, p: Progress, state: int, r: CheckResult)
    requires max >= 1 && ProgressHolds(max, p) && state != OK
    ensures var (after, attempt) := (NextProgress(max, p, state, RouteUp(r)), NextAttempt(p, r));
      && after.currentState == state && after.currentAttempt == attempt
      && after.hostProblemAtLastCheck == !HostFoundUp(r)
      && (after.hard <==> attempt >= max || (!HostFoundUp(r) && (p.hard || p.lastHardState != state)))
      && after.lastHardState == (if after.hard then state else p.lastHardState)
      && (MaxedOut(max, Received(max, p, state), RouteUp(r)) <==> attempt >= max)
  {
  }

  /** A problem makes its one normal attempt, if any, after the notice of flapping. */
  lemma ProblemAttempts(c: Config, s: ServiceState, routeUp: bool, flap: FlapChange, x: Circumstances)
    requires s.progress.currentState != OK
    ensures var (after, log) := Handled(c, s, routeUp, flap, x);
      var (last, entry) := Notify(c, Status(s.progress.currentState, true, s.ack.flag), s.alert, x, Normal, NONE);
      var maxedOut := MaxedOut(c.maxAttempts, s.progress, routeUp);
      && Normals(log) == (if maxedOut then 1 else 0)
      && |log| == Normals(log) + (if flap.FlapSteady? || !after.progress.hard then 0 else 1)
      && after.ack == s.ack
      && if maxedOut then log[|log| - 1] == entry && after.alert == last else after.alert == s.alert
  {
    hide Notify, Normals;
    ProblemNormals(c, s, routeUp, flap, x);
    var (acted, log) := Acted(c, s, routeUp, flap, x);
    NoticesChangeNothing(c, Status(s.progress.currentState, true, s.ack.flag), s.alert, flap);
    NoticesChangeNothing(c, StatusOf(acted), acted.alert, flap);
  }

  lemma NoticesChangeNothing(c: Config, s: Status, a: Alert, flap: FlapChange)
    requires s.currentState != OK
    ensures var (after, log) := FlapNotices(c, s, a, flap);
      after == a && |log| == if flap.FlapSteady? then 0 else 1
  {
  }

  /** The notification fields with which a problem result finds the service: a change of state, or of the hard state at
      the last attempt, starts the times over. */
  function WhenNoted(max: nat, s: ServiceState, state: int): Alert {
    var p := s.progress;
    if state != p.currentState || (!p.hard && p.currentAttempt + 1 == max && state != p.lastHardState)
    then s.alert.(lastNotification := 0, nextNotification := 0, noMoreNotifications := false) else s.alert
  }

  /** A problem result. With the host up the service is hard exactly at its last attempt. With the host down it is also
      hard when it was or when the problem is new, without being notified about: only the last attempt is. */
  lemma ProblemResult(c: Config, s: ServiceState, r: CheckResult, nextEvent: nat, nextProblem: nat)
    requires c.maxAttempts >= 1 && Holds(c, s) && ResultState(r) != OK
    ensures var (after, log) := HandleResult(c, s, r, nextEvent, nextProblem);
      var (p, attempt) := (after.progress, NextAttempt(s.progress, r));
      && p.currentAttempt == attempt && p.hostProblemAtLastCheck == !HostFoundUp(r)
      && (p.hard <==> attempt >= c.maxAttempts
                      || (!HostFoundUp(r) && (s.progress.hard || s.progress.lastHardState != p.currentState)))
      && p.lastHardState == (if p.hard then p.currentState else s.progress.lastHardState)
      && Normals(log) == (if attempt >= c.maxAttempts then 1 else 0)
      && |log| == Normals(log) + (if r.flap.FlapSteady? || !p.hard then 0 else 1)
      && (var found := WhenNoted(c.maxAttempts, s, p.currentState);
          if attempt < c.maxAttempts then after.alert == found else
          var last := log[|log| - 1];
          last.kind == Normal
          && (last.outcome.NotViable? <==>
                !ProblemGoesOut(c, Status(p.currentState, true, after.ack.flag), found, r.circumstances)))
  {
    hide ResultState, RouteUp, AckAfterChange, IdsAfterChange, NextAttempt, HostFoundUp, NextProgress, Handled;
    hide Normals, MaxedOut, ProblemGoesOut, Notify;
    var state := ResultState(r);
    var noted := Noted(c, s, state, nextEvent, nextProblem);
    ResultProgress(c, s, r, nextEvent, nextProblem);
    ProblemProgressIs(c.maxAttempts, s.progress, state, r);
    ProblemAttempts(c, noted, RouteUp(r), r.flap, r.circumstances);
    NotedTimes(c, s, r, nextEvent, nextProblem);
    if NextAttempt(s.progress, r) >= c.maxAttempts {
      ProblemAttemptIsViable(c, Status(state, true, noted.ack.flag), noted.alert, r.circumstances);
      NormalAttemptLeaves(c, Status(state, true, noted.ack.flag), noted.alert, r.circumstances);
    }
  }

  lemma NotedTimes(c: Config, s: ServiceState, r: CheckResult, nextEvent: nat, nextProblem: nat)
    requires c.maxAttempts >= 1 && Holds(c, s) && ResultState(r) != OK
    ensures Noted(c, s, ResultState(r), nextEvent, nextProblem).alert == WhenNoted(c.maxAttempts, s, ResultState(r))
  {
    hide ResultState, AckAfterChange, IdsAfterChange;
  }

  // ----- while the host is down -----

  /** A problem result received while the host is down. */
  predicate IsOutage(e: Event) {
    e.Check? && ValidEvent(e) && !Discarded(e.result) && ResultState(e.result) != OK && !HostFoundUp(e.result)
  }

  /** A service that fails while its host is down is hard from the first failure on, stays at its first attempt and is
      not notified about, unless that attempt is its last. */
  lemma {:induction false} OutageIsHardAtOnce(c: Config, s: ServiceState, events: seq<Event>)
    requires c.maxAttempts >= 1 && Holds(c, s) && s.progress.currentState == OK
    requires events != [] && forall i :: 0 <= i < |events| ==> IsOutage(events[i])
    ensures var (after, log) := Run(c, s, events);
      && Holds(c, after) && after.progress.currentState != OK && after.progress.hostProblemAtLastCheck
      && after.progress.hard && after.progress.currentAttempt == 1
      && Normals(log) == if c.maxAttempts == 1 then |events| else 0
  {
    hide HandleResult, Holds, ResultState, HostFoundUp;
    var n := |events| - 1;
    var (before, log) := Run(c, s, events[..n]);
    if n > 0 {
      OutageIsHardAtOnce(c, s, events[..n]);
    } else {
      assert events[..n] == [];
      OkIsFresh(c, s);
    }
    assert IsOutage(events[n]);
    StepFollows(c, before, events[n]);
    ProblemResult(c, before, events[n].result, events[n].nextEvent, events[n].nextProblem);
    IdsAndAcknowledgements(c, before, events[n].result, events[n].nextEvent, events[n].nextProblem);
    NormalsAppend(log, Step(c, before, events[n]).1);
  }

  /** With the host back the retries start, after an outage in which the service was OK before, or one in which its
      problem was still soft at the end: the m-th failure is attempt m, and the service is hard and notified about
      from the last attempt on, as if it had just failed for the first time. */
  lemma RetriesStartAfterOutage(c: Config, s: ServiceState, outage: seq<Event>, failures: seq<Event>)
    requires c.maxAttempts >= 1 && Holds(c, s) && outage != [] && ValidEvents(outage)
    requires s.progress.currentState == OK || !Run(c, s, outage).0.progress.hard
    requires forall i :: 0 <= i < |outage| ==> IsOutage(outage[i])
    requires failures != [] && Failures(failures)
    ensures var (after, log) := Run(c, Run(c, s, outage).0, failures);
      var m := |failures|;
      && !after.progress.hostProblemAtLastCheck && after.progress.currentAttempt == Min(m, c.maxAttempts)
      && (after.progress.hard <==> m >= c.maxAttempts)
      && Normals(log) == if m < c.maxAttempts then 0 else m - c.maxAttempts + 1
  {
    hide Run, Failures;
    if s.progress.currentState == OK {
      OutageIsHardAtOnce(c, s, outage);
    } else {
      RunHolds(c, s, outage);
      HostProblemIsNoted(c, s, outage);
    }
    RetriesAreExact(c, Run(c, s, outage).0, failures);
  }

  lemma HostProblemIsNoted(c: Config, s: ServiceState, events: seq<Event>)
    requires c.maxAttempts >= 1 && Holds(c, s) && events != [] && ValidEvents(events) && IsOutage(events[|events| - 1])
    ensures Run(c, s, events).0.progress.hostProblemAtLastCheck
  {
    hide HandleResult, Holds, ResultState, HostFoundUp;
    var n := |events| - 1;
    var last := events[n];
    RunHolds(c, s, events[..n]);
    ProblemResult(c, Run(c, s, events[..n]).0, last.result, last.nextEvent, last.nextProblem);
  }

  // ----- recoveries -----

  /** An OK result ends a hard problem, or one the host was down for. */
  predicate EndsHardProblem(c: Config, p: Progress) {
    || p.hostProblemAtLastCheck
    || (p.lastHardState != OK && (p.hard ==> p.currentAttempt >= c.maxAttempts)
        && (!p.hard ==> p.currentAttempt + 1 >= c.maxAttempts))
  }

  /** The notification fields with which a recovery is announced. */
  function WhenRecovered(c: Config, s: ServiceState): Alert {
    if EndsHardProblem(c, s.progress) then s.alert.(recoveryBeenSent := false, initialNotifTime := 0) else s.alert
  }

  /** An OK result. The end of a hard problem is announced; otherwise the recovery is, as long as it has not been sent.
      But the end of a soft problem is not viable, whatever else holds. */
  lemma OkResult(c: Config, s: ServiceState, r: CheckResult, nextEvent: nat, nextProblem: nat)
    requires c.maxAttempts >= 1 && Holds(c, s) && ResultState(r) == OK && r.flap.FlapSteady?
    ensures var (after, log) := HandleResult(c, s, r, nextEvent, nextProblem);
      var (ends, a) := (EndsHardProblem(c, s.progress), WhenRecovered(c, s));
      && log == (if a.recoveryBeenSent then [] else [log[0]])
      && (log != [] ==>
            && log[0].kind == Normal && log[0].state == OK
            && (log[0].outcome.NotViable? <==>
                  !((ends || s.progress.currentState == OK)
                    && RecoveryGoesOut(c, Status(OK, true, false), a, r.circumstances))))
      && (after.alert.recoveryBeenSent <==> a.recoveryBeenSent || log[0].outcome.Reached?)
      && after.alert.lastNotification == 0 && after.alert.nextNotification == 0 && !after.alert.noMoreNotifications
      && (if after.alert.recoveryBeenSent then after.alert.number == 0 && after.alert.notifiedOn == {}
          else after.alert.notifiedOn == s.alert.notifiedOn)
      && after.progress.hard && after.progress.currentAttempt == 1 && !after.progress.hostProblemAtLastCheck
  {
  }
}
