/** Who hears of a recovery: over whole runs, the people who were told about the problem. */
module Audiences {
  import opened Escalations
  import opened NotificationRecords
  import MonitoredObjects
  import Notifications
  import ServiceRuns
  import HostRuns

  /** Escalations that may tell a problem from its recovery: not limited to a period, and enabled for both. */
  predicate Symmetric(escalations: seq<Escalation>, problem: int) {
    forall e :: e in escalations ==> e.inPeriod && problem in e.escalateOn && OK in e.escalateOn
  }

  /** The i-th entry of the record answers the k-th, the last notification of the problem: a person hears of the one
      exactly if the person heard of the other. */
  ghost predicate AnswersTo(log: seq<Notifications.Entry>, i: nat, k: nat, person: Contact, o: Notified,
                            escalations: seq<Escalation>)
    requires i < |log| && k < |log|
  {
    && k < i && IsProblem(log[k]) && (forall j :: k < j < i ==> !IsProblem(log[j]) && !Settles(log[j]))
    && (Symmetric(escalations, log[k].state) ==>
          InAudience(person, o, escalations, OK, log[i].number, false)
          == InAudience(person, o, escalations, log[k].state, log[k].number, false))
  }

  /** In a record that keeps the rules on flags and numbers every recovery has the audience of its problem. */
  lemma RecoveryInRecord(before: MonitoredObjects.Alert, after: MonitoredObjects.Alert, log: seq<Notifications.Entry>,
                         i: nat, person: Contact, o: Notified, escalations: seq<Escalation>)
    requires before.notifiedOn == {} && FlagsFollow(before, after, log) && NumberFollows(before, after, log)
    requires i < |log| && IsRecovery(log[i])
    ensures exists k: nat :: k < |log| && AnswersTo(log, i, k, person, o, escalations)
  {
    var k := LastProblem(log[..i], before.number);
    var problem := log[..i][k];
    assert problem == log[k] && forall j :: k < j < i ==> log[..i][j] == log[j];
    if Symmetric(escalations, problem.state) {
      RecoveryAudience(person, o, escalations, problem.state, problem.number);
    }
    assert AnswersTo(log, i, k, person, o, escalations);
  }

  /** In every undisturbed run of a new service a recovery goes to the people who were last told about the problem. */
  lemma ServiceRecoveryAudience(c: MonitoredObjects.Config, events: seq<ServiceRuns.Event>, i: nat, person: Contact,
                                o: Notified,
                                escalations: seq<Escalation>)
    requires c.maxAttempts >= 1 && ServiceRuns.ValidEvents(events)
    requires forall j :: 0 <= j < |events| ==>
      ServiceRuns.NothingOwed(events[j]) && ServiceRuns.UndisturbedEvent(events[j])
    requires i < |ServiceRuns.Run(c, ServiceRuns.InitialService(), events).1|
    requires IsRecovery(ServiceRuns.Run(c, ServiceRuns.InitialService(), events).1[i])
    ensures var log := ServiceRuns.Run(c, ServiceRuns.InitialService(), events).1;
      exists k: nat :: k < |log| && AnswersTo(log, i, k, person, o, escalations)
  {
    var start := ServiceRuns.InitialService();
    ServiceRuns.RecoveriesInRuns(c, start, events);
    ServiceRuns.RecoveryNumbersInRuns(c, start, events);
    var (after, log) := ServiceRuns.Run(c, start, events);
    RecoveryInRecord(start.alert, after.alert, log, i, person, o, escalations);
  }

  /** The same for hosts. */
  lemma HostRecoveryAudience(c: MonitoredObjects.Config, events: seq<HostRuns.Event>, i: nat, person: Contact,
                             o: Notified,
                             escalations: seq<Escalation>)
    requires c.maxAttempts >= 1 && HostRuns.ValidEvents(events)
    requires forall j :: 0 <= j < |events| ==> HostRuns.NothingOwed(events[j]) && HostRuns.UndisturbedEvent(events[j])
    requires i < |HostRuns.Run(c, HostRuns.InitialHost(), events).1|
    requires IsRecovery(HostRuns.Run(c, HostRuns.InitialHost(), events).1[i])
    ensures var log := HostRuns.Run(c, HostRuns.InitialHost(), events).1;
      exists k: nat :: k < |log| && AnswersTo(log, i, k, person, o, escalations)
  {
    var start := HostRuns.InitialHost();
    HostRuns.RecoveriesInRuns(c, start, events);
    HostRuns.RecoveryNumbersInRuns(c, start, events);
    var (after, log) := HostRuns.Run(c, start, events);
    RecoveryInRecord(start.alert, after.alert, log, i, person, o, escalations);
  }
}
