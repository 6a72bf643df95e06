/** An acknowledged problem is not notified about: what that means over whole runs. */
module Acknowledgements {
  import opened MonitoredObjects
  import opened Notifications
  import opened NotificationRecords
  import opened NotificationMeanings
  import SC = ServiceChecks
  import S = ServiceRuns
  import HC = HostChecks
  import H = HostRuns

  /** No normal attempt of the record was viable. */
  predicate Silent(log: seq<Entry>) {
    forall i :: 0 <= i < |log| && log[i].kind == Normal ==> log[i].outcome.NotViable?
  }

  lemma AcknowledgedAttempt(c: Config, s: Status, a: Alert, x: Circumstances)
    requires s.acknowledged && s.currentState != OK
    ensures Notify(c, s, a, x, Normal, NONE).1.outcome.NotViable?
  {
    ProblemAttemptIsViable(c, s, a, x);
  }

  lemma SilentNotices(c: Config, s: Status, a: Alert, flap: FlapChange)
    requires s.currentState != OK
    ensures Silent(FlapNotices(c, s, a, flap).1)
  {
    NoticesOfFlapping(c, s, a, flap);
  }

  // ----- services -----

  /** An event after which the service is acknowledged has made no viable normal attempt. */
  lemma ServiceStepIsSilent(c: Config, s: SC.ServiceState, e: S.Event)
    requires c.maxAttempts >= 1 && S.Holds(c, s) && S.ValidEvent(e) && S.Step(c, s, e).0.ack.flag
    ensures Silent(S.Step(c, s, e).1)
  {
    hide Notify, FlapNotices, SC.HandleResult;
    match e
    case Check(r, nextEvent, nextProblem) =>
      if !SC.Discarded(r) {
        ServiceResultIsSilent(c, s, r, nextEvent, nextProblem);
      }
    case Flap(flap) => SilentNotices(c, S.StatusOf(s), s.alert, flap);
    case Attempt(kind, options, x) => OtherKindsFollow(c, S.StatusOf(s), s.alert, x, kind, options);
    case Acknowledge(_) =>
  }

  lemma ServiceResultIsSilent(c: Config, s: SC.ServiceState, r: SC.CheckResult, nextEvent: nat, nextProblem: nat)
    requires c.maxAttempts >= 1 && S.Holds(c, s) && nextProblem >= 1
    requires SC.HandleResult(c, s, r, nextEvent, nextProblem).0.ack.flag
    ensures Silent(SC.HandleResult(c, s, r, nextEvent, nextProblem).1)
  {
    hide Notify, SC.ResultState, SC.RouteUp, SC.AckAfterChange, SC.IdsAfterChange, SC.HardStateChanged, SC.OkAlert;
    hide SC.MaxedOut, SC.ProblemProgress;
    S.IdsAndAcknowledgements(c, s, r, nextEvent, nextProblem);
    var noted := SC.Noted(c, s, SC.ResultState(r), nextEvent, nextProblem);
    var status := Status(noted.progress.currentState, true, noted.ack.flag);
    SilentNotices(c, status, noted.alert, r.flap);
    var noticed := FlapNotices(c, status, noted.alert, r.flap).0;
    AcknowledgedAttempt(c, status, noticed, r.circumstances);
    var acted := SC.Acted(c, noted, SC.RouteUp(r), r.flap, r.circumstances).0;
    SilentNotices(c, S.StatusOf(acted), acted.alert, r.flap);
  }

  /** As long as a service stays acknowledged, no normal attempt is viable. */
  lemma {:induction false} AcknowledgedServiceIsSilent(c: Config, s: SC.ServiceState, events: seq<S.Event>)
    requires c.maxAttempts >= 1 && S.Holds(c, s) && S.ValidEvents(events)
    requires forall n :: 0 < n <= |events| ==> S.Run(c, s, events[..n]).0.ack.flag
    ensures Silent(S.Run(c, s, events).1)
  {
    hide S.Step, S.Holds;
    if events != [] {
      var n := |events| - 1;
      forall m | 0 < m <= n ensures S.Run(c, s, events[..n][..m]).0.ack.flag {
        assert events[..n][..m] == events[..m];
      }
      AcknowledgedServiceIsSilent(c, s, events[..n]);
      S.RunHolds(c, s, events[..n]);
      assert events[..n + 1] == events;
      ServiceStepIsSilent(c, S.Run(c, s, events[..n]).0, events[n]);
    }
  }

  /** An event that leaves an acknowledgement alone: not another one, nor a result that ends the problem or, if the
      acknowledgement is not sticky, changes its state. */
  predicate LeavesAcknowledged(s: SC.ServiceState, e: S.Event) {
    match e
    case Acknowledge(_) => false
    case Check(r, _, _) =>
      SC.Discarded(r) || (SC.ResultState(r) != OK
                          && (s.ack.kind == StickyAcknowledgement || SC.ResultState(r) == s.progress.currentState))
    case _ => true
  }

  /** So an acknowledged problem is not notified about through any number of such events. */
  lemma {:induction false} AcknowledgementLasts(c: Config, s: SC.ServiceState, events: seq<S.Event>)
    requires c.maxAttempts >= 1 && S.Holds(c, s) && S.ValidEvents(events)
    requires s.ack == Acknowledged(true, NormalAcknowledgement) || s.ack == Acknowledged(true, StickyAcknowledgement)
    requires forall i :: 0 <= i < |events| ==> LeavesAcknowledged(s, events[i])
    ensures var (after, log) := S.Run(c, s, events);
      && after.ack == s.ack && Silent(log)
      && (s.ack.kind == NormalAcknowledgement ==> after.progress.currentState == s.progress.currentState)
  {
    hide S.Step, S.Holds;
    if events != [] {
      var n := |events| - 1;
      AcknowledgementLasts(c, s, events[..n]);
      S.RunHolds(c, s, events[..n]);
      var before := S.Run(c, s, events[..n]).0;
      assert LeavesAcknowledged(s, events[n]);
      ServiceStaysAcknowledged(c, s, before, events[n]);
      ServiceStepIsSilent(c, before, events[n]);
    }
  }

  lemma ServiceStaysAcknowledged(c: Config, start: SC.ServiceState, s: SC.ServiceState, e: S.Event)
    requires c.maxAttempts >= 1 && S.Holds(c, s) && S.ValidEvent(e) && LeavesAcknowledged(start, e)
    requires s.ack == start.ack && s.ack.flag && s.ack.kind != NoAcknowledgement
    requires s.ack.kind == NormalAcknowledgement ==> s.progress.currentState == start.progress.currentState
    ensures var after := S.Step(c, s, e).0;
      && after.ack == s.ack
      && (s.ack.kind == NormalAcknowledgement ==> after.progress.currentState == s.progress.currentState)
  {
    hide Notify, FlapNotices, SC.HandleResult, SC.ResultState;
    if e.Check? && !SC.Discarded(e.result) {
      S.IdsAndAcknowledgements(c, s, e.result, e.nextEvent, e.nextProblem);
    }
  }

  // ----- hosts -----

  /** An event after which the host is acknowledged has made no viable normal attempt; a reminder by a failing service
      is none either. */
  lemma HostStepIsSilent(c: Config, s: HC.HostState, e: H.Event)
    requires c.maxAttempts >= 1 && H.Holds(c, s) && H.ValidEvent(e) && H.Step(c, s, e).0.ack.flag
    ensures Silent(H.Step(c, s, e).1)
  {
    hide Notify, FlapNotices, HC.HandleResult;
    match e
    case Launch =>
    case Check(r, verdict, nextEvent, nextProblem) =>
      if !HC.Discarded(r) {
        HostResultIsSilent(c, s, r, verdict, nextEvent, nextProblem);
      }
    case Flap(flap) => SilentNotices(c, HC.StatusOf(s), s.alert, flap);
    case Remind(x) =>
      if s.progress.currentState != UP {
        AcknowledgedAttempt(c, HC.StatusOf(s), s.alert, x);
      }
    case Attempt(kind, options, x) => OtherKindsFollow(c, HC.StatusOf(s), s.alert, x, kind, options);
    case Acknowledge(_) =>
  }

  lemma HostResultIsSilent(c: Config, s: HC.HostState, r: HC.HostResult, verdict: int, nextEvent: nat, nextProblem: nat)
    requires c.maxAttempts >= 1 && H.Holds(c, s) && nextProblem >= 1 && verdict != UP
    requires HC.HandleResult(c, s, r, verdict, nextEvent, nextProblem).0.ack.flag
    ensures Silent(HC.HandleResult(c, s, r, verdict, nextEvent, nextProblem).1)
  {
    hide Notify, HC.ProcessedResult, HC.AckAfterChange, HC.IdsAfterChange, HC.AlertAfterChange;
    H.IdsAndAcknowledgements(c, s, r, verdict, nextEvent, nextProblem);
    var p := HC.ProcessedResult(c, s.progress, r, verdict);
    var ack := HC.AckAfterChange(p, s.ack);
    AcknowledgedAttempt(c, Status(p.currentState, true, ack.flag), HC.AlertAfterChange(p, s.alert), r.circumstances);
    var caused := HC.Caused(c, HC.HostState(p, s.ack, s.alert, s.ids), r.circumstances, nextEvent, nextProblem).0;
    SilentNotices(c, HC.StatusOf(caused), caused.alert, r.flap);
  }

  /** As long as a host stays acknowledged, no normal attempt is viable. */
  lemma {:induction false} AcknowledgedHostIsSilent(c: Config, s: HC.HostState, events: seq<H.Event>)
    requires c.maxAttempts >= 1 && H.Holds(c, s) && H.ValidEvents(events)
    requires forall n :: 0 < n <= |events| ==> H.Run(c, s, events[..n]).0.ack.flag
    ensures Silent(H.Run(c, s, events).1)
  {
    hide H.Step, H.Holds;
    if events != [] {
      var n := |events| - 1;
      forall m | 0 < m <= n ensures H.Run(c, s, events[..n][..m]).0.ack.flag {
        assert events[..n][..m] == events[..m];
      }
      AcknowledgedHostIsSilent(c, s, events[..n]);
      H.RunHolds(c, s, events[..n]);
      assert events[..n + 1] == events;
      HostStepIsSilent(c, H.Run(c, s, events[..n]).0, events[n]);
    }
  }

  /** A sticky acknowledgement of a host lasts through all results other than UP, and keeps it silent. */
  lemma {:induction false} StickyAcknowledgementLasts(c: Config, s: HC.HostState, events: seq<H.Event>)
    requires c.maxAttempts >= 1 && H.Holds(c, s) && H.ValidEvents(events)
    requires s.ack == Acknowledged(true, StickyAcknowledgement)
    requires forall i :: 0 <= i < |events| ==> !events[i].Acknowledge?
    requires forall i :: 0 <= i < |events| && events[i].Check? && !HC.Discarded(events[i].result) ==>
      !HC.ReportsUp(events[i].result)
    ensures H.Run(c, s, events).0.ack == s.ack && Silent(H.Run(c, s, events).1)
  {
    hide H.Step, H.Holds, HC.ReportsUp;
    if events != [] {
      var n := |events| - 1;
      StickyAcknowledgementLasts(c, s, events[..n]);
      H.RunHolds(c, s, events[..n]);
      var before := H.Run(c, s, events[..n]).0;
      HostStaysAcknowledged(c, before, events[n]);
      HostStepIsSilent(c, before, events[n]);
    }
  }

  lemma HostStaysAcknowledged(c: Config, s: HC.HostState, e: H.Event)
    requires c.maxAttempts >= 1 && H.Holds(c, s) && H.ValidEvent(e) && !e.Acknowledge?
    requires e.Check? && !HC.Discarded(e.result) ==> !HC.ReportsUp(e.result)
    requires s.ack == Acknowledged(true, StickyAcknowledgement)
    ensures H.Step(c, s, e).0.ack == s.ack
  {
    hide Notify, FlapNotices, HC.HandleResult;
    if e.Check? && !HC.Discarded(e.result) {
      H.IdsAndAcknowledgements(c, s, e.result, e.verdict, e.nextEvent, e.nextProblem);
      HC.ReportedState(c, s, e.result, e.verdict, e.nextEvent, e.nextProblem);
    }
  }
}
