/** Runs of a host: what holds after every sequence of checks, notifications and acknowledgements. */
module HostRuns {
  import opened MonitoredObjects
  import opened Notifications
  import opened NotificationRecords
  import opened HostChecks

  // ----- the invariant of a host -----

  /** Attempts stay in range, an UP host carries no acknowledgement, a problem id marks a problem, and flags come
      with a counted notification. */
  predicate Holds(c: Config, s: HostState) {
    && 1 <= s.progress.currentAttempt <= c.maxAttempts
    && (s.ack.flag <==> s.ack.kind != NoAcknowledgement)
    && (s.progress.currentState == UP ==> !s.ack.flag)
    && (s.ids.currentProblem != 0 <==> s.progress.currentState != UP)
    && NumbersHold(s.alert)
  }

  function InitialHost(): HostState {
    HostState(HostProgress(UP, UP, true, UP, 1),
              Acknowledged(false, NoAcknowledgement), InitialAlert(), Ids(0, 0, 0, 0))
  }

  /** What handle_host_state attempts keeps the rules on number and flags. */
  lemma HostAttempt(c: Config, p: HostProgress, ack: Acknowledged, a: Alert, x: Circumstances)
    requires NumbersHold(a)
    ensures var (after, log) := HostAlert(c, p, ack, a, x);
      && NumbersHold(after) && ClearedTogether(a, after) && FlagsFollow(a, after, log) && NoneAtFlapEnd(log)
      && (x.broker == Proceed ==> NumberFollows(a, after, log))
  {
    hide Notify;
    var s := Status(p.currentState, true, ack.flag);
    var (sent, entry) := Notify(c, s, a, x, Normal, NONE);
    SingleEntry(entry, a.notifiedOn != {}, a.number);
    if p.currentState == UP {
      RecoveryFollows(c, s, a, x);
    } else {
      AttemptFollows(c, s, a, x, Normal, NONE);
    }
  }

  /** The rules look at number and flags alone, and nothing happens without an attempt. */
  lemma SameStart(a: Alert, b: Alert, after: Alert, log: seq<Entry>)
    requires a.number == b.number && a.notifiedOn == b.notifiedOn
    ensures FlagsFollow(a, after, log) == FlagsFollow(b, after, log)
    ensures NumberFollows(a, after, log) == NumberFollows(b, after, log)
    ensures FlagsFollow(a, b, []) && NumberFollows(a, b, [])
  {
  }

  lemma ResultFollows(c: Config, s: HostState, r: HostResult, verdict: int, nextEvent: nat, nextProblem: nat)
    requires c.maxAttempts >= 1 && nextProblem >= 1 && verdict != UP && Holds(c, s)
    ensures var (after, log) := HandleResult(c, s, r, verdict, nextEvent, nextProblem);
      && Holds(c, after) && ClearedTogether(s.alert, after.alert)
      && FlagsFollow(s.alert, after.alert, log)
      && (!Owed(r.flap) ==> NoneAtFlapEnd(log)
                            && (r.circumstances.broker == Proceed ==> NumberFollows(s.alert, after.alert, log)))
  {
    hide HostAlert, ResultState, FlapNotices, FlagsFollow, NumberFollows;
    var p := ProcessedResult(c, s.progress, r, verdict);
    var changed := AlertAfterChange(p, s.alert);
    HostAttempt(c, p, AckAfterChange(p, s.ack), changed, r.circumstances);
    var (caused, log) := Caused(c, HostState(p, s.ack, s.alert, s.ids), r.circumstances, nextEvent, nextProblem);
    SameStart(s.alert, changed, caused.alert, log);
    FlapNoticesFollow(c, StatusOf(caused), caused.alert, r.flap);
    var (after, notices) := FlapNotices(c, StatusOf(caused), caused.alert, r.flap);
    FollowOn(s.alert, caused.alert, after, log, notices);
  }

  /** What a result says about the host: UP iff it reports UP; otherwise active and translated results take the
      verdict on the route, other passive ones their own word. A final result is hard; the first failure of a host
      that has retries left is soft. */
  lemma ResultDecidesState(c: Config, s: HostState, r: HostResult, verdict: int, nextEvent: nat, nextProblem: nat)
    requires verdict != UP
    ensures var (after, _) := HandleResult(c, s, r, verdict, nextEvent, nextProblem);
      var p := after.progress;
      && (p.currentState == UP <==> ResultState(r) == UP)
      && (p.currentState != UP ==>
            p.currentState == if !r.passive || r.translatePassives then verdict else r.returnCode)
      && p.lastState == s.progress.currentState
      && (Final(r) ==> p.hard)
      && (p.currentState != UP && s.progress.currentState == UP ==> (p.hard <==> Final(r) || c.maxAttempts == 1))
      && (p.currentState == UP && s.progress.currentState != UP ==> (p.hard <==> Final(r) || s.progress.hard))
      && (p.currentState == UP && s.progress.currentState == UP ==> p.hard)
  {
    hide HostAlert, AckAfterChange, AlertAfterChange, IdsAfterChange, AdjustedAttempt, FlapNotices;
  }

  /** The life of a problem id and of an acknowledgement: a problem keeps one id from its first result other than UP
      to its end. A sticky acknowledgement lasts until the host is UP. A normal one lasts until the state changes, and
      does not outlast a result that finds a problem still soft whose state was not the last hard one. */
  lemma IdsAndAcknowledgements(c: Config, s: HostState, r: HostResult, verdict: int, nextEvent: nat, nextProblem: nat)
    requires c.maxAttempts >= 1 && nextProblem >= 1 && verdict != UP && Holds(c, s)
    ensures var (after, _) := HandleResult(c, s, r, verdict, nextEvent, nextProblem);
      var (was, now) := (s.progress.currentState, after.progress.currentState);
      && after.ids.currentProblem == (if now == UP then 0 else if was == UP then nextProblem else s.ids.currentProblem)
      && (was != UP && now == UP ==> after.ids.lastProblem == s.ids.currentProblem)
      && (was != UP && now != UP ==> after.ids.lastProblem == s.ids.lastProblem)
      && (was != now ==> after.ids.currentEvent == nextEvent && after.ids.lastEvent == s.ids.currentEvent)
      && (var lost := was != now || (!s.progress.hard && s.progress.lastHardState != now);
          after.ack == if now == UP || (s.ack.kind == NormalAcknowledgement && lost)
                       then Acknowledged(false, NoAcknowledgement) else s.ack)
  {
    hide HostAlert, AlertAfterChange, ResultState, AdjustedAttempt, FlapNotices;
  }

  /** A soft problem loses its normal acknowledgement to the next result although the state stays the same. */
  lemma SoftProblemLosesAcknowledgement()
    ensures var soft := HostState(HostProgress(DOWN, UP, false, UP, 2), Acknowledged(true, NormalAcknowledgement),
                                  InitialAlert(), Ids(1, 0, 1, 0));
      var config := Eager().(isService := false);
      var down := HostResult(2, true, false, true, false, false, true, false, false, false, FlapSteady, Clear(1000));
      var (after, log) := HandleResult(config, soft, down, DOWN, 2, 2);
      Holds(config, soft) && after.progress.currentState == DOWN && after.ack == Acknowledged(false, NoAcknowledgement)
  {
  }

  // ----- runs -----

  /** What happens to a host: a check is launched; a result comes in, with the verdict on its route and the ids it
      may draw; flapping starts or ends at another time, as the result of a service may have it; a failing service has
      the host notified about again; something else is notified about; an acknowledgement, which only a problem can
      carry, is set or removed. */
  datatype Event =
    | Launch
    | Check(result: HostResult, verdict: int, nextEvent: nat, nextProblem: nat)
    | Flap(flap: FlapChange)
    | Remind(circumstances: Circumstances)
    | Attempt(kind: Kind, options: Options, circumstances: Circumstances)
    | Acknowledge(acknowledgement: AcknowledgementType)

  predicate ValidEvent(e: Event) {
    match e
    case Check(_, verdict, _, nextProblem) => nextProblem >= 1 && verdict != UP
    case Attempt(kind, _, _) => kind != Normal
    case _ => true
  }

  function Step(c: Config, s: HostState, e: Event): (HostState, seq<Entry>) {
    match e
    case Launch => (s.(progress := s.progress.(currentAttempt := AdjustedAttempt(c.maxAttempts, s.progress, true))), [])
    case Check(r, verdict, nextEvent, nextProblem) =>
      if Discarded(r) then (s, []) else HandleResult(c, s, r, verdict, nextEvent, nextProblem)
    case Flap(flap) =>
      var (after, log) := FlapNotices(c, StatusOf(s), s.alert, flap);
      (s.(alert := after), log)
    case Remind(x) =>
      if s.progress.currentState == UP then (s, []) else
      var (after, entry) := Notify(c, StatusOf(s), s.alert, x, Normal, NONE);
      (s.(alert := after), [entry])
    case Attempt(kind, options, x) =>
      var (after, entry) := Notify(c, StatusOf(s), s.alert, x, kind, options);
      (s.(alert := after), [entry])
    case Acknowledge(kind) =>
      (if s.progress.currentState == UP then s else s.(ack := Acknowledged(kind != NoAcknowledgement, kind)), [])
  }

  /** The state after a run and the record of its attempts. */
  function Run(c: Config, s: HostState, events: seq<Event>): (HostState, seq<Entry>) {
    if events == [] then (s, [])
    else
      var (before, log) := Run(c, s, events[..|events| - 1]);
      var (after, step) := Step(c, before, events[|events| - 1]);
      (after, log + step)
  }

  predicate ValidEvents(events: seq<Event>) {
    forall i :: 0 <= i < |events| ==> ValidEvent(events[i])
  }

  /** No recovery is owed at an end of flapping; with flap detection off that is so for every event. */
  predicate NothingOwed(e: Event) {
    match e
    case Check(r, _, _, _) => !Owed(r.flap)
    case Flap(flap) => !Owed(flap)
    case _ => true
  }

  /** No broker stops an attempt of the event, and no option raises the number. */
  predicate UndisturbedEvent(e: Event) {
    match e
    case Check(r, _, _, _) => r.circumstances.broker == Proceed
    case Remind(x) => x.broker == Proceed
    case Attempt(_, options, x) => Undisturbed(x, options)
    case _ => true
  }

  lemma StepFollows(c: Config, s: HostState, e: Event)
    requires c.maxAttempts >= 1 && Holds(c, s) && ValidEvent(e)
    ensures var (after, step) := Step(c, s, e);
      && Holds(c, after) && ClearedTogether(s.alert, after.alert) && FlagsFollow(s.alert, after.alert, step)
      && (NothingOwed(e) ==> NoneAtFlapEnd(step)
                             && (UndisturbedEvent(e) ==> NumberFollows(s.alert, after.alert, step)))
  {
    hide HandleResult, Notify, FlapNotices, FlagsFollow, NumberFollows;
    SameStart(s.alert, s.alert, s.alert, []);
    match e
    case Launch =>
    case Check(r, verdict, nextEvent, nextProblem) => ResultFollows(c, s, r, verdict, nextEvent, nextProblem);
    case Flap(flap) => FlapNoticesFollow(c, StatusOf(s), s.alert, flap);
    case Remind(x) =>
      if s.progress.currentState != UP {
        AttemptFollows(c, StatusOf(s), s.alert, x, Normal, NONE);
      }
    case Attempt(kind, options, x) => AttemptFollows(c, StatusOf(s), s.alert, x, kind, options);
    case Acknowledge(_) =>
  }

  lemma {:induction false} RunHolds(c: Config, s: HostState, events: seq<Event>)
    requires c.maxAttempts >= 1 && Holds(c, s) && ValidEvents(events)
    ensures Holds(c, Run(c, s, events).0)
  {
    hide Step, Holds;
    if events != [] {
      var n := |events| - 1;
      RunHolds(c, s, events[..n]);
      StepFollows(c, Run(c, s, events[..n]).0, events[n]);
    }
  }

  /** In every run every recovery answers a problem that was notified since the one before was settled. */
  lemma {:induction false} RecoveriesInRuns(c: Config, s: HostState, events: seq<Event>)
    requires c.maxAttempts >= 1 && Holds(c, s) && ValidEvents(events)
    ensures var (after, log) := Run(c, s, events);
      Holds(c, after) && FlagsFollow(s.alert, after.alert, log)
  {
    hide Step, Holds, FlagsFollow, NumberFollows;
    if events == [] {
      SameStart(s.alert, s.alert, s.alert, []);
    } else {
      var n := |events| - 1;
      RecoveriesInRuns(c, s, events[..n]);
      var (before, log) := Run(c, s, events[..n]);
      var (after, step) := Step(c, before, events[n]);
      StepFollows(c, before, events[n]);
      FollowOn(s.alert, before.alert, after.alert, log, step);
    }
  }

  /** If no recovery is owed by flapping, none is made at an end of flapping, and without brokers or options that tamper
      with the number, a recovery carries the number of the last problem notification plus one. */
  lemma {:induction false} RecoveryNumbersInRuns(c: Config, s: HostState, events: seq<Event>)
    requires c.maxAttempts >= 1 && Holds(c, s) && ValidEvents(events)
    requires forall i :: 0 <= i < |events| ==> NothingOwed(events[i])
    ensures var (after, log) := Run(c, s, events);
      && NoneAtFlapEnd(log)
      && ((forall i :: 0 <= i < |events| ==> UndisturbedEvent(events[i])) ==> NumberFollows(s.alert, after.alert, log))
  {
    hide Step, Holds, FlagsFollow, NumberFollows;
    if events == [] {
      SameStart(s.alert, s.alert, s.alert, []);
    } else {
      var n := |events| - 1;
      RecoveryNumbersInRuns(c, s, events[..n]);
      RecoveriesInRuns(c, s, events[..n]);
      var (before, log) := Run(c, s, events[..n]);
      var (after, step) := Step(c, before, events[n]);
      StepFollows(c, before, events[n]);
      FollowOn(s.alert, before.alert, after.alert, log, step);
    }
  }

  /** From a newly configured host on, a problem was notified to someone before every recovery. Of two recoveries with
      no problem notified between them the first was made at an end of flapping, which takes a recovery owed there.
      Number and flags agree all the way. */
  lemma OneRecoveryPerProblem(c: Config, events: seq<Event>, i: nat, j: nat)
    requires c.maxAttempts >= 1 && ValidEvents(events)
    ensures var (after, log) := Run(c, InitialHost(), events);
      && NumbersHold(after.alert)
      && (i < |log| && IsRecovery(log[i]) ==> exists k: nat :: k < i && IsProblem(log[k]))
      && (i < j < |log| && IsRecovery(log[i]) && IsRecovery(log[j]) ==>
            log[i].atFlapEnd || exists k: nat :: i < k < j && IsProblem(log[k]))
    ensures (forall k :: 0 <= k < |events| ==> NothingOwed(events[k])) ==>
      NoneAtFlapEnd(Run(c, InitialHost(), events).1)
  {
    hide Run;
    RecoveriesInRuns(c, InitialHost(), events);
    var (after, log) := Run(c, InitialHost(), events);
    if forall k :: 0 <= k < |events| ==> NothingOwed(events[k]) {
      RecoveryNumbersInRuns(c, InitialHost(), events);
    }
    if i < |log| && IsRecovery(log[i]) {
      var k := PendingProblem(log[..i]);
      if i < j < |log| && IsRecovery(log[j]) {
        AtMostOneRecoveryPerProblem(log, false, i, j);
      }
    }
  }

  // ----- ids -----

  /** The ids a host takes during a run, the counters starting where the given ones stand. */
  function LedgerAfter(c: Config, s: HostState, events: seq<Event>, nextEvent: nat, nextProblem: nat): Ledger {
    if events == [] then Ledger(nextEvent, nextProblem, [], []) else
    var n := |events| - 1;
    var l := LedgerAfter(c, s, events[..n], nextEvent, nextProblem);
    var before := Run(c, s, events[..n]).0;
    Entered(c, l, before, Step(c, before, events[n]).0, events[n])
  }

  function Entered(c: Config, l: Ledger, before: HostState, after: HostState, e: Event): Ledger {
    if !e.Check? || Discarded(e.result) then l else
    var p := ProcessedResult(c, before.progress, e.result, e.verdict);
    var (nextEvent, nextProblem) := Drawn(p, e.nextEvent, e.nextProblem);
    Ledger(nextEvent, nextProblem, l.events + (if HostChanged(p) then [after.ids.currentEvent] else []),
           l.problems + if HostChanged(p) && p.lastState == UP then [ProblemId(after)] else [])
  }

  /** The id of the problem a host has, or had last. */
  function ProblemId(s: HostState): nat {
    if s.progress.currentState == UP then s.ids.lastProblem else s.ids.currentProblem
  }

  /** Every result draws from the program-wide counters, which other objects may have raised in between. */
  predicate DrawsFromCounters(c: Config, s: HostState, events: seq<Event>, nextEvent: nat, nextProblem: nat) {
    events == [] ||
    (var n := |events| - 1;
     var l := LedgerAfter(c, s, events[..n], nextEvent, nextProblem);
     && DrawsFromCounters(c, s, events[..n], nextEvent, nextProblem)
     && (events[n].Check? ==> l.nextEvent <= events[n].nextEvent && l.nextProblem <= events[n].nextProblem))
  }

  /** In every run all changes have different event ids, and all problems different problem ids. */
  lemma {:induction false} IdsAreDistinct(c: Config, s: HostState, events: seq<Event>, nextEvent: nat, nextProblem: nat)
    requires DrawsFromCounters(c, s, events, nextEvent, nextProblem)
    ensures var l := LedgerAfter(c, s, events, nextEvent, nextProblem);
      Fresh(l.events, l.nextEvent) && Fresh(l.problems, l.nextProblem)
  {
    hide Step;
    if events != [] {
      var n := |events| - 1;
      IdsAreDistinct(c, s, events[..n], nextEvent, nextProblem);
      IdsAreEntered(c, LedgerAfter(c, s, events[..n], nextEvent, nextProblem), Run(c, s, events[..n]).0, events[n]);
    }
  }

  lemma IdsAreEntered(c: Config, l: Ledger, s: HostState, e: Event)
    requires e.Check? ==> l.nextEvent <= e.nextEvent && l.nextProblem <= e.nextProblem
    requires Fresh(l.events, l.nextEvent) && Fresh(l.problems, l.nextProblem)
    ensures var after := Entered(c, l, s, Step(c, s, e).0, e);
      Fresh(after.events, after.nextEvent) && Fresh(after.problems, after.nextProblem)
  {
    hide HostAlert, AlertAfterChange, AckAfterChange, FlapNotices, Notify, ProcessedResult;
  }

  // ----- retries -----

  /** A result other than UP that is retried: active, or passive and treated as soft. */
  predicate IsFailure(e: Event) {
    && e.Check? && ValidEvent(e) && !Discarded(e.result) && ResultState(e.result) != UP && !Final(e.result)
  }

  /** An active check adjusts the attempt when it is launched, a soft passive result when it comes in. */
  function Round(e: Event): seq<Event> {
    if e.Check? && e.result.passive then [e] else [Launch, e]
  }

  function Rounds(failures: seq<Event>): seq<Event> {
    if failures == [] then [] else Rounds(failures[..|failures| - 1]) + Round(failures[|failures| - 1])
  }

  /** From a hard UP host, the k-th failure in a row is hard exactly when k has reached max, and all that follow are
      hard although the attempt has started over at one; each hard one attempts a notification, no soft one does. */
  lemma {:induction false} RetriesAreExact(c: Config, s: HostState, failures: seq<Event>)
    requires c.maxAttempts >= 1 && s.progress.currentState == UP && s.progress.hard
    requires |failures| >= 1 && forall i :: 0 <= i < |failures| ==> IsFailure(failures[i])
    ensures var (after, log) := Run(c, s, Rounds(failures));
      var k := |failures|;
      && after.progress.currentState != UP
      && (after.progress.hard <==> k >= c.maxAttempts)
      && after.progress.currentAttempt == (if k <= c.maxAttempts then k else 1)
      && Normals(log) == (if k < c.maxAttempts then 0 else k - c.maxAttempts + 1)
  {
    hide Step, Prepared, Round;
    var n := |failures| - 1;
    var (before, log) := Run(c, s, Rounds(failures[..n]));
    if n == 0 {
      assert failures[..n] == [];
    } else {
      RetriesAreExact(c, s, failures[..n]);
    }
    assert IsFailure(failures[n]);
    RunRound(c, s, Rounds(failures[..n]), failures[n]);
    FailureRound(c, before, failures[n]);
    NormalsAppend(log, Step(c, Prepared(c, before, failures[n]), failures[n]).1);
  }

  /** The state in which the result of a round finds the host. */
  function Prepared(c: Config, s: HostState, e: Event): HostState {
    if Round(e) == [e] then s else Step(c, s, Launch).0
  }

  /** A run that ends with one round. */
  lemma RunRound(c: Config, s: HostState, events: seq<Event>, e: Event)
    ensures var (before, log) := Run(c, s, events);
      Run(c, s, events + Round(e)) ==
        var (after, step) := Step(c, Prepared(c, before, e), e);
        (after, log + step)
  {
    hide HandleResult, FlapNotices, Notify, AdjustedAttempt;
    if Round(e) == [e] {
      assert (events + [e])[..|events|] == events;
    } else {
      assert (events + [Launch, e])[..|events| + 1] == events + [Launch];
      assert (events + [Launch])[..|events|] == events;
      assert Run(c, s, events).1 + [] == Run(c, s, events).1;
      assert Run(c, s, events + [Launch]) == (Step(c, Run(c, s, events).0, Launch).0, Run(c, s, events).1);
    }
  }

  lemma FailureRound(c: Config, s: HostState, e: Event)
    requires c.maxAttempts >= 1 && IsFailure(e) && (s.progress.currentState == UP ==> s.progress.hard)
    requires s.progress.currentState != UP && !s.progress.hard ==> 1 <= s.progress.currentAttempt < c.maxAttempts
    ensures var (after, log) := Step(c, Prepared(c, s, e), e);
      && after.progress.currentState != UP
      && after.progress.currentAttempt == (if s.progress.hard then 1 else s.progress.currentAttempt + 1)
      && (after.progress.hard <==>
            (s.progress.hard && s.progress.currentState != UP) || after.progress.currentAttempt == c.maxAttempts)
      && Normals(log) == (if after.progress.hard then 1 else 0)
  {
    hide HostAlert, AckAfterChange, AlertAfterChange, IdsAfterChange, ResultState, FlapNotices, Normals;
    FailureNormals(c, Prepared(c, s, e), e);
  }

  /** A failure that leaves the host hard is notified about, a soft one is not. */
  lemma FailureNormals(c: Config, s: HostState, e: Event)
    requires IsFailure(e)
    ensures var (after, log) := Step(c, s, e);
      Normals(log) == if after.progress.hard then 1 else 0
  {
    hide Viable, AfterCheck, AfterContacts, AckAfterChange;
    hide AlertAfterChange, IdsAfterChange, FlapNotices, AdjustedAttempt;
    var p := ProcessedResult(c, s.progress, e.result, e.verdict);
    var (caused, log) := Caused(c, HostState(p, s.ack, s.alert, s.ids),
      e.result.circumstances, e.nextEvent, e.nextProblem);
    NoticesAreNotNormal(c, StatusOf(caused), caused.alert, e.result.flap);
    NormalsAppend(log, FlapNotices(c, StatusOf(caused), caused.alert, e.result.flap).1);
    if p.hard {
      assert log[..0] == [];
    }
  }
}
