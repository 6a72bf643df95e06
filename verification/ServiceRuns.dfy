/** Runs of a service: what holds after every sequence of check results, notifications and acknowledgements. */
module ServiceRuns {
  import opened MonitoredObjects
  import opened Notifications
  import opened NotificationRecords
  import opened ServiceChecks

  // ----- the invariant of a service -----

  predicate ProgressHolds(max: nat, p: Progress) {
    && 1 <= p.currentAttempt <= max
    && (!p.hard ==> p.currentState != OK && p.currentAttempt < max)
    && (p.hard ==> p.lastHardState == p.currentState)
    && (p.currentState == OK ==> p.hard && p.currentAttempt == 1 && !p.hostProblemAtLastCheck)
  }

  /** A soft state is a problem with attempts left, a hard state is the last hard state, an OK service starts afresh,
      a problem id marks a problem, and flags come with a counted notification. */
  predicate Holds(c: Config, s: ServiceState) {
    && ProgressHolds(c.maxAttempts, s.progress)
    && (s.progress.currentState == OK ==> s.ack == Acknowledged(false, NoAcknowledgement))
    && (s.ids.currentProblem != 0 <==> s.progress.currentState != OK)
    && NumbersHold(s.alert)
  }

  lemma OkIsFresh(c: Config, s: ServiceState)
    requires Holds(c, s) && s.progress.currentState == OK
    ensures s.progress.hard && s.progress.lastHardState == OK && s.progress.currentAttempt == 1
    ensures !s.progress.hostProblemAtLastCheck && NumbersHold(s.alert)
  {
  }

  function InitialService(): ServiceState {
    ServiceState(Progress(OK, OK, true, OK, 1, false),
                 Acknowledged(false, NoAcknowledgement), InitialAlert(), Ids(0, 0, 0, 0))
  }

  /** The progress of a service depends on the results and the state of the host alone. */
  function NextProgress(max: nat, p: Progress, state: int, routeUp: bool): Progress {
    var q := Received(max, p, state);
    if state == OK then OkProgress(q) else ProblemProgress(max, q, routeUp)
  }

  lemma ResultProgress(c: Config, s: ServiceState, r: CheckResult, nextEvent: nat, nextProblem: nat)
    ensures HandleResult(c, s, r, nextEvent, nextProblem).0.progress
         == NextProgress(c.maxAttempts, s.progress, ResultState(r), RouteUp(r))
  {
    hide OkAlert, ProblemAlert, AckAfterChange, AlertAfterChange, IdsAfterChange, ProblemProgress, OkProgress;
    hide ResultState, RouteUp, ServiceFlapNotices, FlappingChecked;
  }

  lemma ProgressStep(max: nat, p: Progress, state: int, routeUp: bool)
    requires max >= 1 && ProgressHolds(max, p)
    ensures ProgressHolds(max, NextProgress(max, p, state, routeUp))
    ensures NextProgress(max, p, state, routeUp).currentState == state
  {
  }

  /** A recovery attempt, with the reset that follows it in an OK result. */
  lemma RecoveryAndReset(c: Config, s: Status, a: Alert, x: Circumstances)
    requires NumbersHold(a) && s.currentState == OK
    ensures var (sent, entry) := Notify(c, s, a, x, Normal, NONE);
      var after := AlertAfterOk(sent);
      && NumbersHold(after) && ClearedTogether(a, after) && FlagsFollow(a, after, [entry]) && !entry.atFlapEnd
      && (x.broker == Proceed ==> NumberFollows(a, after, [entry]))
  {
    hide Notify;
    RecoveryFollows(c, s, a, x);
    SingleEntry(Notify(c, s, a, x, Normal, NONE).1, a.notifiedOn != {}, a.number);
  }

  lemma OkFollows(c: Config, p: Progress, a: Alert, flap: FlapChange, x: Circumstances)
    requires p.currentState == OK && NumbersHold(a)
    ensures var (after, log) := OkAlert(c, p, a, flap, x);
      && NumbersHold(after) && ClearedTogether(a, after)
      && FlagsFollow(a, after, log)
      && (!Owed(flap) ==> NoneAtFlapEnd(log) && (x.broker == Proceed ==> NumberFollows(a, after, log)))
  {
    hide Notify, FlapNotices, FlagsFollow, NumberFollows;
    if HardStateChanged(c.maxAttempts, p) {
      var s := Status(OK, true, false);
      FlapNoticesFollow(c, s, MadeDue(a), flap);
      var (noticed, notices) := FlapNotices(c, s, MadeDue(a), flap);
      RecoveryAndReset(c, s, noticed, x);
      var (sent, entry) := Notify(c, s, noticed, x, Normal, NONE);
      SameStart(a, MadeDue(a), noticed, notices);
      FollowOn(a, noticed, AlertAfterOk(sent), notices, [entry]);
    } else if !a.recoveryBeenSent {
      RecoveryAndReset(c, Status(OK, p.hard && !StateChanged(p), false), a, x);
    } else {
      NothingFollows(a, AlertAfterOk(a));
    }
  }

  /** The rules look at number and flags alone. */
  lemma SameStart(a: Alert, b: Alert, after: Alert, log: seq<Entry>)
    requires a.number == b.number && a.notifiedOn == b.notifiedOn
    ensures FlagsFollow(a, after, log) == FlagsFollow(b, after, log)
    ensures NumberFollows(a, after, log) == NumberFollows(b, after, log)
  {
  }

  lemma NothingFollows(a: Alert, after: Alert)
    requires after.notifiedOn == {} || (after.number == a.number && after.notifiedOn == a.notifiedOn)
    ensures FlagsFollow(a, after, []) && NumberFollows(a, after, [])
  {
  }

  lemma ProblemFollows(c: Config, p: Progress, ack: Acknowledged, a: Alert, routeUp: bool, flap: FlapChange,
                       x: Circumstances)
    requires p.currentState != OK && NumbersHold(a)
    ensures var (after, log) := ProblemAlert(c, p, ack, a, routeUp, flap, x);
      && NumbersHold(after) && ClearedTogether(a, after)
      && FlagsFollow(a, after, log)
      && (!Owed(flap) ==> NoneAtFlapEnd(log) && (x.broker == Proceed ==> NumberFollows(a, after, log)))
  {
    hide Notify, FlapNotices, FlagsFollow, NumberFollows;
    if MaxedOut(c.maxAttempts, p, routeUp) {
      var s := Status(p.currentState, true, ack.flag);
      FlapNoticesFollow(c, s, a, flap);
      var (noticed, notices) := FlapNotices(c, s, a, flap);
      AttemptFollows(c, s, noticed, x, Normal, NONE);
      var (after, entry) := Notify(c, s, noticed, x, Normal, NONE);
      FollowOn(a, noticed, after, notices, [entry]);
    } else {
      NothingFollows(a, a);
    }
  }

  lemma ActedFollows(c: Config, s: ServiceState, routeUp: bool, flap: FlapChange, x: Circumstances)
    requires NumbersHold(s.alert)
    ensures var (after, log) := Acted(c, s, routeUp, flap, x);
      && NumbersHold(after.alert) && ClearedTogether(s.alert, after.alert)
      && FlagsFollow(s.alert, after.alert, log)
      && (!Owed(flap) ==> NoneAtFlapEnd(log)
                          && (x.broker == Proceed ==> NumberFollows(s.alert, after.alert, log)))
  {
    hide OkAlert, ProblemAlert, FlagsFollow, NumberFollows;
    if s.progress.currentState == OK {
      OkFollows(c, s.progress, s.alert, flap, x);
    } else {
      ProblemFollows(c, s.progress, s.ack, s.alert, routeUp, flap, x);
    }
  }

  /** The attempts a result leads to keep the rule on flags, and the one on numbers unless a recovery is owed at the end
      of flapping. */
  lemma ResultFollows(c: Config, s: ServiceState, r: CheckResult, nextEvent: nat, nextProblem: nat)
    requires NumbersHold(s.alert)
    ensures var (after, log) := HandleResult(c, s, r, nextEvent, nextProblem);
      && NumbersHold(after.alert) && ClearedTogether(s.alert, after.alert)
      && FlagsFollow(s.alert, after.alert, log)
      && (!Owed(r.flap) ==> NoneAtFlapEnd(log)
                            && (r.circumstances.broker == Proceed ==> NumberFollows(s.alert, after.alert, log)))
  {
    hide Acted, FlapNotices, FlagsFollow, NumberFollows;
    hide IdsAfterChange, AckAfterChange, FlappingChecked, RouteUp, ResultState;
    var noted := Noted(c, s, ResultState(r), nextEvent, nextProblem);
    ActedFollows(c, noted, RouteUp(r), r.flap, r.circumstances);
    var (acted, log) := Acted(c, noted, RouteUp(r), r.flap, r.circumstances);
    SameStart(s.alert, noted.alert, acted.alert, log);
    var status := Status(acted.progress.currentState, acted.progress.hard, acted.ack.flag);
    FlapNoticesFollow(c, status, acted.alert, r.flap);
    NothingFollows(acted.alert, acted.alert);
    var (after, notices) := ServiceFlapNotices(c, status, acted.alert, r.flap);
    FollowOn(s.alert, acted.alert, after, log, notices);
  }

  /** Every accepted check result preserves the invariant, whatever the state of the host. */
  lemma ResultKeepsInvariant(c: Config, s: ServiceState, r: CheckResult, nextEvent: nat, nextProblem: nat)
    requires c.maxAttempts >= 1 && nextProblem >= 1 && Holds(c, s)
    ensures Holds(c, HandleResult(c, s, r, nextEvent, nextProblem).0)
  {
    hide OkAlert, ProblemAlert, AckAfterChange, AlertAfterChange, ProblemProgress, FlagsFollow, NumberFollows, RouteUp;
    hide NumbersHold, ServiceFlapNotices, FlappingChecked, ResultState;
    ResultProgress(c, s, r, nextEvent, nextProblem);
    ProgressStep(c.maxAttempts, s.progress, ResultState(r), RouteUp(r));
    ResultFollows(c, s, r, nextEvent, nextProblem);
  }

  /** The life of a problem id and of an acknowledgement. A problem keeps one id from its first non-OK result to its
      end, which hands the id on; every change of state has an event id of its own. A normal acknowledgement lasts
      while the state stays the same, a sticky one until the service is OK. */
  lemma IdsAndAcknowledgements(c: Config, s: ServiceState, r: CheckResult, nextEvent: nat, nextProblem: nat)
    requires c.maxAttempts >= 1 && nextProblem >= 1 && Holds(c, s)
    ensures var (after, _) := HandleResult(c, s, r, nextEvent, nextProblem);
      var (was, now) := (s.progress.currentState, after.progress.currentState);
      && now == ResultState(r) && after.progress.lastState == was
      && after.ids.currentProblem == (if now == OK then 0 else if was == OK then nextProblem else s.ids.currentProblem)
      && after.ids.lastProblem == (if was != OK && now == OK then s.ids.currentProblem else s.ids.lastProblem)
      && after.ids.currentEvent == (if was != now then nextEvent else s.ids.currentEvent)
      && after.ids.lastEvent == (if was != now then s.ids.currentEvent else s.ids.lastEvent)
      && after.ack == (if now == OK || (was != now && s.ack.kind == NormalAcknowledgement)
                       then Acknowledged(false, NoAcknowledgement) else s.ack)
  {
    hide OkAlert, ProblemAlert, AlertAfterChange, ProblemProgress;
    hide ResultState, RouteUp, ServiceFlapNotices, FlappingChecked;
    ResultProgress(c, s, r, nextEvent, nextProblem);
    ProgressStep(c.maxAttempts, s.progress, ResultState(r), RouteUp(r));
    LastStateIsKept(c.maxAttempts, s.progress, ResultState(r), RouteUp(r));
  }

  lemma LastStateIsKept(max: nat, p: Progress, state: int, routeUp: bool)
    ensures NextProgress(max, p, state, routeUp).lastState == p.currentState
  {
  }

  // ----- runs -----

  /** What happens to a service: a check result with the ids it may draw; flapping that starts or ends outside the
      handler; an attempt to notify about something else; an acknowledgement, which only a problem can carry, set or
      removed. */
  datatype Event =
    | Check(result: CheckResult, nextEvent: nat, nextProblem: nat)
    | Flap(flap: FlapChange)
    | Attempt(kind: Kind, options: Options, circumstances: Circumstances)
    | Acknowledge(acknowledgement: AcknowledgementType)

  /** Problem ids are drawn from one on; normal notifications are the business of check results. */
  predicate ValidEvent(e: Event) {
    match e
    case Check(_, _, nextProblem) => nextProblem >= 1
    case Attempt(kind, _, _) => kind != Normal
    case _ => true
  }

  function StatusOf(s: ServiceState): Status {
    Status(s.progress.currentState, s.progress.hard, s.ack.flag)
  }

  function Step(c: Config, s: ServiceState, e: Event): (ServiceState, seq<Entry>) {
    match e
    case Check(r, nextEvent, nextProblem) =>
      if Discarded(r) then (s, []) else HandleResult(c, s, r, nextEvent, nextProblem)
    case Flap(flap) =>
      var (after, log) := FlapNotices(c, StatusOf(s), s.alert, flap);
      (s.(alert := after), log)
    case Attempt(kind, options, x) =>
      var (after, entry) := Notify(c, StatusOf(s), s.alert, x, kind, options);
      (s.(alert := after), [entry])
    case Acknowledge(kind) =>
      (if s.progress.currentState == OK then s else s.(ack := Acknowledged(kind != NoAcknowledgement, kind)), [])
  }

  /** The state after a run and the record of its attempts. */
  function Run(c: Config, s: ServiceState, events: seq<Event>): (ServiceState, seq<Entry>) {
    if events == [] then (s, [])
    else
      var (before, log) := Run(c, s, events[..|events| - 1]);
      var (after, step) := Step(c, before, events[|events| - 1]);
      (after, log + step)
  }

  predicate ValidEvents(events: seq<Event>) {
    forall i :: 0 <= i < |events| ==> ValidEvent(events[i])
  }

  /** No recovery is owed at an end of flapping; with flap detection off that is so for every event. */
  predicate NothingOwed(e: Event) {
    match e
    case Check(r, _, _) => !Owed(r.flap)
    case Flap(flap) => !Owed(flap)
    case _ => true
  }

  /** No broker stops an attempt of the event, and no option raises the number. */
  predicate UndisturbedEvent(e: Event) {
    match e
    case Check(r, _, _) => r.circumstances.broker == Proceed
    case Attempt(_, options, x) => Undisturbed(x, options)
    case _ => true
  }

  lemma StepFollows(c: Config, s: ServiceState, e: Event)
    requires c.maxAttempts >= 1 && Holds(c, s) && ValidEvent(e)
    ensures var (after, step) := Step(c, s, e);
      && Holds(c, after) && ClearedTogether(s.alert, after.alert) && FlagsFollow(s.alert, after.alert, step)
      && (NothingOwed(e) ==> NoneAtFlapEnd(step)
                             && (UndisturbedEvent(e) ==> NumberFollows(s.alert, after.alert, step)))
  {
    hide HandleResult, Notify, FlapNotices, FlagsFollow, NumberFollows;
    NothingFollows(s.alert, s.alert);
    match e
    case Check(r, nextEvent, nextProblem) =>
      ResultKeepsInvariant(c, s, r, nextEvent, nextProblem);
      ResultFollows(c, s, r, nextEvent, nextProblem);
    case Flap(flap) => FlapNoticesFollow(c, StatusOf(s), s.alert, flap);
    case Attempt(kind, options, x) => AttemptFollows(c, StatusOf(s), s.alert, x, kind, options);
    case Acknowledge(_) =>
  }

  lemma {:induction false} RunHolds(c: Config, s: ServiceState, events: seq<Event>)
    requires c.maxAttempts >= 1 && Holds(c, s) && ValidEvents(events)
    ensures Holds(c, Run(c, s, events).0)
  {
    hide Step, Holds;
    if events != [] {
      var n := |events| - 1;
      RunHolds(c, s, events[..n]);
      StepFollows(c, Run(c, s, events[..n]).0, events[n]);
    }
  }

  /** In every run every recovery answers a problem that was notified since the one before was settled. */
  lemma {:induction false} RecoveriesInRuns(c: Config, s: ServiceState, events: seq<Event>)
    requires c.maxAttempts >= 1 && Holds(c, s) && ValidEvents(events)
    ensures var (after, log) := Run(c, s, events);
      Holds(c, after) && FlagsFollow(s.alert, after.alert, log)
  {
    hide Step, Holds, FlagsFollow, NumberFollows;
    if events == [] {
      NothingFollows(s.alert, s.alert);
    } else {
      var n := |events| - 1;
      RecoveriesInRuns(c, s, events[..n]);
      var (before, log) := Run(c, s, events[..n]);
      var (after, step) := Step(c, before, events[n]);
      StepFollows(c, before, events[n]);
      FollowOn(s.alert, before.alert, after.alert, log, step);
    }
  }

  /** If no recovery is owed by flapping, none is made at an end of flapping, and without brokers or options that tamper
      with the number, a recovery carries the number of the last problem notification plus one. */
  lemma {:induction false} RecoveryNumbersInRuns(c: Config, s: ServiceState, events: seq<Event>)
    requires c.maxAttempts >= 1 && Holds(c, s) && ValidEvents(events)
    requires forall i :: 0 <= i < |events| ==> NothingOwed(events[i])
    ensures var (after, log) := Run(c, s, events);
      && NoneAtFlapEnd(log)
      && ((forall i :: 0 <= i < |events| ==> UndisturbedEvent(events[i])) ==> NumberFollows(s.alert, after.alert, log))
  {
    hide Step, Holds, FlagsFollow, NumberFollows;
    if events == [] {
      NothingFollows(s.alert, s.alert);
    } else {
      var n := |events| - 1;
      RecoveryNumbersInRuns(c, s, events[..n]);
      RecoveriesInRuns(c, s, events[..n]);
      var (before, log) := Run(c, s, events[..n]);
      var (after, step) := Step(c, before, events[n]);
      StepFollows(c, before, events[n]);
      FollowOn(s.alert, before.alert, after.alert, log, step);
    }
  }

  /** From a newly configured service on, a problem was notified to someone before every recovery. Of two recoveries
      with no problem notified between them the first was made at an end of flapping, which takes a recovery owed there.
      Number and flags agree all the way. */
  lemma OneRecoveryPerProblem(c: Config, events: seq<Event>, i: nat, j: nat)
    requires c.maxAttempts >= 1 && ValidEvents(events)
    ensures var (after, log) := Run(c, InitialService(), events);
      && NumbersHold(after.alert)
      && (i < |log| && IsRecovery(log[i]) ==> exists k: nat :: k < i && IsProblem(log[k]))
      && (i < j < |log| && IsRecovery(log[i]) && IsRecovery(log[j]) ==>
            log[i].atFlapEnd || exists k: nat :: i < k < j && IsProblem(log[k]))
    ensures (forall k :: 0 <= k < |events| ==> NothingOwed(events[k])) ==>
      NoneAtFlapEnd(Run(c, InitialService(), events).1)
  {
    hide Run;
    RecoveriesInRuns(c, InitialService(), events);
    var (after, log) := Run(c, InitialService(), events);
    if forall k :: 0 <= k < |events| ==> NothingOwed(events[k]) {
      RecoveryNumbersInRuns(c, InitialService(), events);
    }
    if i < |log| && IsRecovery(log[i]) {
      var k := PendingProblem(log[..i]);
      if i < j < |log| && IsRecovery(log[j]) {
        AtMostOneRecoveryPerProblem(log, false, i, j);
      }
    }
  }

  // ----- ids -----

  /** The ids a service takes during a run, the counters starting where the given ones stand. */
  function LedgerAfter(c: Config, s: ServiceState, events: seq<Event>, nextEvent: nat, nextProblem: nat): Ledger {
    if events == [] then Ledger(nextEvent, nextProblem, [], []) else
    var n := |events| - 1;
    var l := LedgerAfter(c, s, events[..n], nextEvent, nextProblem);
    var before := Run(c, s, events[..n]).0;
    Entered(l, before, Step(c, before, events[n]).0, events[n])
  }

  function Entered(l: Ledger, before: ServiceState, after: ServiceState, e: Event): Ledger {
    if !e.Check? || Discarded(e.result) then l else
    var (was, now) := (before.progress.currentState, after.progress.currentState);
    var (nextEvent, nextProblem) := Drawn(was, now, e.nextEvent, e.nextProblem);
    Ledger(nextEvent, nextProblem, l.events + (if was != now then [after.ids.currentEvent] else []),
           l.problems + if was == OK && now != OK then [after.ids.currentProblem] else [])
  }

  /** Every result draws from the program-wide counters, which other objects may have raised in between. */
  predicate DrawsFromCounters(c: Config, s: ServiceState, events: seq<Event>, nextEvent: nat, nextProblem: nat) {
    events == [] ||
    (var n := |events| - 1;
     var l := LedgerAfter(c, s, events[..n], nextEvent, nextProblem);
     && DrawsFromCounters(c, s, events[..n], nextEvent, nextProblem)
     && (events[n].Check? ==> l.nextEvent <= events[n].nextEvent && l.nextProblem <= events[n].nextProblem))
  }

  /** In every run all changes of state have different event ids, and all problems different problem ids. */
  lemma {:induction false} IdsAreDistinct(c: Config, s: ServiceState, events: seq<Event>, nextEvent: nat,
                                          nextProblem: nat)
    requires c.maxAttempts >= 1 && Holds(c, s) && ValidEvents(events)
    requires DrawsFromCounters(c, s, events, nextEvent, nextProblem)
    ensures var l := LedgerAfter(c, s, events, nextEvent, nextProblem);
      Fresh(l.events, l.nextEvent) && Fresh(l.problems, l.nextProblem)
  {
    hide Step, Holds;
    if events != [] {
      var n := |events| - 1;
      IdsAreDistinct(c, s, events[..n], nextEvent, nextProblem);
      RunHolds(c, s, events[..n]);
      IdsAreEntered(c, LedgerAfter(c, s, events[..n], nextEvent, nextProblem), Run(c, s, events[..n]).0, events[n]);
    }
  }

  lemma IdsAreEntered(c: Config, l: Ledger, s: ServiceState, e: Event)
    requires c.maxAttempts >= 1 && Holds(c, s) && ValidEvent(e)
    requires e.Check? ==> l.nextEvent <= e.nextEvent && l.nextProblem <= e.nextProblem
    requires Fresh(l.events, l.nextEvent) && Fresh(l.problems, l.nextProblem)
    ensures var after := Entered(l, s, Step(c, s, e).0, e);
      Fresh(after.events, after.nextEvent) && Fresh(after.problems, after.nextProblem)
  {
    hide HandleResult, Holds, FlapNotices, Notify;
    if e.Check? && !Discarded(e.result) {
      IdsAndAcknowledgements(c, s, e.result, e.nextEvent, e.nextProblem);
    }
  }

  // ----- retries -----

  /** Non-OK results received while the host stays up. */
  predicate Failures(events: seq<Event>) {
    forall i :: 0 <= i < |events| ==> IsFailure(events[i])
  }

  predicate IsFailure(e: Event) {
    e.Check? && e.nextProblem >= 1 && !Discarded(e.result) && ResultState(e.result) != OK && RouteUp(e.result)
  }

  function Min(a: int, b: int): int { if a < b then a else b }

  /** The next failure is counted as the first: the service is hard at its first attempt, as an OK service is, or its
      problem was soft when its host was down. */
  predicate CountsFromOne(p: Progress) {
    if p.hard then p.currentAttempt == 1 else p.hostProblemAtLastCheck
  }

  /** From such a service, k failures in a row lead to attempt min(k, max), hard exactly from the max-th on, and the
      first notification is attempted with result number max: one for every result from there. */
  lemma {:induction false} RetriesAreExact(c: Config, s: ServiceState, events: seq<Event>)
    requires c.maxAttempts >= 1 && 1 <= s.progress.currentAttempt <= c.maxAttempts && CountsFromOne(s.progress)
    requires !s.progress.hard ==> s.progress.currentAttempt < c.maxAttempts
    requires |events| >= 1 && Failures(events)
    ensures var (after, log) := Run(c, s, events);
      var k := |events|;
      && after.progress.currentState != OK && !after.progress.hostProblemAtLastCheck
      && after.progress.currentAttempt == Min(k, c.maxAttempts)
      && (after.progress.hard <==> k >= c.maxAttempts)
      && Normals(log) == (if k < c.maxAttempts then 0 else k - c.maxAttempts + 1)
  {
    hide HandleResult, RouteUp, ResultState;
    var n := |events| - 1;
    var (before, log) := Run(c, s, events[..n]);
    if n == 0 {
      assert events[..n] == [];
    } else {
      RetriesAreExact(c, s, events[..n]);
    }
    assert IsFailure(events[n]);
    FailureStep(c, before, events[n]);
    NormalsAppend(log, Step(c, before, events[n]).1);
  }

  lemma FailureStep(c: Config, s: ServiceState, e: Event)
    requires c.maxAttempts >= 1 && IsFailure(e) && 1 <= s.progress.currentAttempt <= c.maxAttempts
    requires s.progress.hostProblemAtLastCheck && !s.progress.hard ==> s.progress.currentAttempt < c.maxAttempts
    ensures var (after, log) := Step(c, s, e);
      && after.progress.currentState != OK && !after.progress.hostProblemAtLastCheck
      && after.progress.currentAttempt
         == (if s.progress.hard || s.progress.currentAttempt == c.maxAttempts then s.progress.currentAttempt
             else if s.progress.hostProblemAtLastCheck then 1 else s.progress.currentAttempt + 1)
      && after.progress.hard == (after.progress.currentAttempt >= c.maxAttempts)
      && Normals(log) == (if after.progress.hard then 1 else 0)
  {
    hide Notify, AckAfterChange, AlertAfterChange, IdsAfterChange, HardStateChanged, OkAlert, FlapNotices, Normals;
    var r := e.result;
    var p := Received(c.maxAttempts, s.progress, ResultState(r));
    var noted := Noted(c, s, ResultState(r), e.nextEvent, e.nextProblem);
    ProblemNormals(c, noted, RouteUp(r), r.flap, r.circumstances);
  }

  /** Flap detection makes no normal attempt in a problem; a hard problem at its last attempt makes one. */
  lemma ProblemNormals(c: Config, s: ServiceState, routeUp: bool, flap: FlapChange, x: Circumstances)
    requires s.progress.currentState != OK
    ensures Normals(Handled(c, s, routeUp, flap, x).1) == if MaxedOut(c.maxAttempts, s.progress, routeUp) then 1 else 0
  {
    hide Viable, AfterCheck, AfterContacts, MaxedOut;
    var (acted, log) := Acted(c, s, routeUp, flap, x);
    if MaxedOut(c.maxAttempts, s.progress, routeUp) {
      var status := Status(s.progress.currentState, true, s.ack.flag);
      var (noticed, notices) := ServiceFlapNotices(c, status, s.alert, flap);
      NoticesAreNotNormal(c, status, s.alert, flap);
      var entry := Notify(c, status, noticed, x, Normal, NONE).1;
      assert [entry][..0] == [];
      NormalsAppend(notices, [entry]);
    } else {
      NoticesAreNotNormal(c, StatusOf(acted), acted.alert, flap);
      NormalsAppend(log, ServiceFlapNotices(c, StatusOf(acted), acted.alert, flap).1);
    }
  }
}
