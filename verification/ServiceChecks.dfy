/** Results of service checks: soft and hard states, attempts, and the notifications they cause
    (handle_async_service_check_result in src/checks.cc). */
module ServiceChecks {
  import opened MonitoredObjects
  import opened Notifications

  /** Where a service stands. */
  datatype Progress = Progress(
    currentState: int, lastState: int, hard: bool,
    lastHardState: int, currentAttempt: int, hostProblemAtLastCheck: bool)

  datatype ServiceState = ServiceState(progress: Progress, ack: Acknowledged, alert: Alert, ids: Ids)

  function ProgressOf(o: Monitored): Progress
    reads o
  {
    Progress(o.currentState, o.lastState, o.hard, o.lastHardState, o.currentAttempt, o.hostProblemAtLastCheck)
  }

  function StateOf(o: Monitored): ServiceState
    reads o
  {
    ServiceState(ProgressOf(o), AckOf(o), o.AlertView(), IdsOf(o))
  }

  /** A check result and what surrounds its processing. hostUp is the state of the host, and checkedRouteUp what
      an on-demand check of it yields when host checking is aggressive; flap is what flap detection makes of the
      result. */
  datatype CheckResult = CheckResult(
    returnCode: int, exitedOk: bool, passive: bool, passiveAccepted: bool, freshnessCheck: bool, alreadyFresh: bool,
    hostUp: bool, aggressive: bool, checkedRouteUp: bool, flap: FlapChange, circumstances: Circumstances)

  /** Results that are discarded before they touch the state. */
  predicate Discarded(r: CheckResult) {
    (r.passive && !r.passiveAccepted) || (r.freshnessCheck && r.alreadyFresh)
  }

  /** The state a result stands for. */
  function ResultState(r: CheckResult): (state: int)
    ensures OK <= state <= UNKNOWN
  {
    if !r.exitedOk || r.returnCode < 0 || r.returnCode > 3 then UNKNOWN else r.returnCode
  }

  predicate RouteUp(r: CheckResult) {
    if r.aggressive then r.checkedRouteUp else r.hostUp
  }

  // ----- the steps of the handler -----

  /** The result is taken over, and a recheck of a soft state counts as an attempt. */
  function Received(max: nat, p: Progress, state: int): Progress {
    p.(lastState := p.currentState, currentState := state,
       currentAttempt := if !p.hard && p.currentAttempt < max then p.currentAttempt + 1 else p.currentAttempt)
  }

  predicate StateChanged(p: Progress) { p.currentState != p.lastState }

  predicate HardStateChanged(max: nat, p: Progress) {
    (p.hostProblemAtLastCheck && p.currentState == OK) || (p.currentAttempt >= max && p.currentState != p.lastHardState)
  }

  function AckAfterChange(max: nat, p: Progress, ack: Acknowledged): Acknowledged {
    if !StateChanged(p) && !HardStateChanged(max, p) then ack
    else if ack.kind == NormalAcknowledgement && (StateChanged(p) || !HardStateChanged(max, p))
    then Acknowledged(false, NoAcknowledgement)
    else if ack.kind == StickyAcknowledgement && p.currentState == OK then Acknowledged(false, NoAcknowledgement)
    else ack
  }

  function AlertAfterChange(max: nat, p: Progress, a: Alert): Alert {
    if StateChanged(p) || HardStateChanged(max, p)
    then a.(lastNotification := 0, nextNotification := 0, noMoreNotifications := false) else a
  }

  function IdsAfterChange(p: Progress, ids: Ids, nextEvent: nat, nextProblem: nat): Ids {
    if !StateChanged(p) then ids else
    var problem := if p.lastState == OK then nextProblem else ids.currentProblem;
    if p.currentState == OK then Ids(nextEvent, ids.currentEvent, 0, problem)
    else Ids(nextEvent, ids.currentEvent, problem, ids.lastProblem)
  }

  /** An OK result leaves the service in a fresh hard state. */
  function OkProgress(p: Progress): Progress {
    p.(hostProblemAtLastCheck := false, currentAttempt := 1, hard := true, lastHardState := OK)
  }

  /** check_for_service_flapping leaves soft problems alone. */
  function ServiceFlapNotices(c: Config, s: Status, a: Alert, flap: FlapChange): (Alert, seq<Entry>) {
    if !s.hard && s.currentState != OK then (a, []) else FlapNotices(c, s, a, flap)
  }

  /** Where a hard state is notified about, flap detection comes first. */
  function Announced(c: Config, s: Status, a: Alert, flap: FlapChange, x: Circumstances): (Alert, seq<Entry>) {
    var (noticed, notices) := ServiceFlapNotices(c, s, a, flap);
    var (after, entry) := Notify(c, s, noticed, x, Normal, NONE);
    (after, notices + [entry])
  }

  /** A hard recovery becomes due. */
  function MadeDue(a: Alert): Alert {
    a.(recoveryBeenSent := false, initialNotifTime := 0)
  }

  /** The attempt to announce a recovery, if there is one to announce. */
  function RecoveryAlert(c: Config, p: Progress, a: Alert, flap: FlapChange, x: Circumstances): (Alert, seq<Entry>) {
    if HardStateChanged(c.maxAttempts, p) then Announced(c, Status(p.currentState, true, false), MadeDue(a), flap, x)
    else if !a.recoveryBeenSent then
      var (after, entry) := Notify(c, Status(p.currentState, p.hard && !StateChanged(p), false), a, x, Normal, NONE);
      (after, [entry])
    else (a, [])
  }

  /** The reset at the end of an OK result; number and flags go once the recovery was sent. */
  function AlertAfterOk(a: Alert): Alert {
    var quiet := a.(lastNotification := 0, nextNotification := 0, noMoreNotifications := false);
    if a.recoveryBeenSent then quiet.(number := 0, notifiedOn := {}, initialNotifTime := 0) else quiet
  }

  function OkAlert(c: Config, p: Progress, a: Alert, flap: FlapChange, x: Circumstances): (Alert, seq<Entry>) {
    var (sent, log) := RecoveryAlert(c, p, a, flap, x);
    (AlertAfterOk(sent), log)
  }

  /** With its host down a service goes hard at once; when the host is back, a soft problem starts over. */
  function RouteProgress(max: nat, p: Progress, routeUp: bool): Progress {
    if !routeUp then
      (if HardStateChanged(max, p) || p.lastHardState != p.currentState
        then p.(hard := true, lastHardState := p.currentState) else p)
      .(hostProblemAtLastCheck := true)
    else if p.hostProblemAtLastCheck then
      p.(hostProblemAtLastCheck := false, currentAttempt := if !p.hard then 1 else p.currentAttempt)
    else p
  }

  predicate MaxedOut(max: nat, p: Progress, routeUp: bool) {
    RouteProgress(max, p, routeUp).currentAttempt >= max
  }

  function ProblemProgress(max: nat, p: Progress, routeUp: bool): Progress {
    var q := RouteProgress(max, p, routeUp);
    if q.currentAttempt >= max then q.(hard := true, lastHardState := q.currentState)
    else if routeUp then q.(hard := false) else q
  }

  function ProblemAlert(c: Config, p: Progress, ack: Acknowledged, a: Alert, routeUp: bool, flap: FlapChange,
                        x: Circumstances)
    : (Alert, seq<Entry>)
  {
    if !MaxedOut(c.maxAttempts, p, routeUp) then (a, [])
    else Announced(c, Status(p.currentState, true, ack.flag), a, flap, x)
  }

  /** A hard recovery and a problem at its last attempt have had their check for flapping. */
  predicate FlappingChecked(max: nat, p: Progress, routeUp: bool) {
    if p.currentState == OK then HardStateChanged(max, p) else MaxedOut(max, p, routeUp)
  }

  /** The result is noted: state, ids, and what a change resets. */
  function Noted(c: Config, s: ServiceState, state: int, nextEvent: nat, nextProblem: nat): ServiceState {
    var p := Received(c.maxAttempts, s.progress, state);
    ServiceState(p, AckAfterChange(c.maxAttempts, p, s.ack), AlertAfterChange(c.maxAttempts, p, s.alert),
                 IdsAfterChange(p, s.ids, nextEvent, nextProblem))
  }

  /** The noted result is acted upon. */
  function Acted(c: Config, s: ServiceState, routeUp: bool, flap: FlapChange, x: Circumstances)
    : (ServiceState, seq<Entry>)
  {
    if s.progress.currentState == OK then
      var (after, log) := OkAlert(c, s.progress, s.alert, flap, x);
      (ServiceState(OkProgress(s.progress), Acknowledged(false, NoAcknowledgement), after, s.ids), log)
    else
      var (after, log) := ProblemAlert(c, s.progress, s.ack, s.alert, routeUp, flap, x);
      (ServiceState(ProblemProgress(c.maxAttempts, s.progress, routeUp), s.ack, after, s.ids), log)
  }

  /** The check for flapping that is left to do. */
  function FlapChecked(c: Config, s: ServiceState, flap: FlapChange): (ServiceState, seq<Entry>) {
    var status := Status(s.progress.currentState, s.progress.hard, s.ack.flag);
    var (after, log) := ServiceFlapNotices(c, status, s.alert, flap);
    (s.(alert := after), log)
  }

  function Handled(c: Config, s: ServiceState, routeUp: bool, flap: FlapChange, x: Circumstances)
    : (ServiceState, seq<Entry>)
  {
    var (acted, log) := Acted(c, s, routeUp, flap, x);
    if FlappingChecked(c.maxAttempts, s.progress, routeUp) then (acted, log) else
    var (after, notices) := FlapChecked(c, acted, flap);
    (after, log + notices)
  }

  /** The counters after a result: a change of state draws an event id, the begin of a problem a problem id. */
  function Drawn(was: int, now: int, nextEvent: nat, nextProblem: nat): (nat, nat) {
    (if was != now then nextEvent + 1 else nextEvent, if was != now && was == OK then nextProblem + 1 else nextProblem)
  }

  /** What one accepted check result does to a service. */
  function HandleResult(c: Config, s: ServiceState, r: CheckResult, nextEvent: nat, nextProblem: nat)
    : (ServiceState, seq<Entry>)
  {
    Handled(c, Noted(c, s, ResultState(r), nextEvent, nextProblem), RouteUp(r), r.flap, r.circumstances)
  }

  /** The old state is saved and the result taken over. */
  method TakeOver(o: Monitored, r: CheckResult)
    modifies o`lastState, o`currentState, o`currentAttempt
    ensures ProgressOf(o) == Received(o.config.maxAttempts, old(ProgressOf(o)), ResultState(r))
  {
    o.lastState := o.currentState;
    if !r.exitedOk {
      o.currentState := UNKNOWN;
    } else if r.returnCode < 0 || r.returnCode > 3 {
      o.currentState := UNKNOWN;
    } else {
      o.currentState := r.returnCode;
    }
    if !o.hard && o.currentAttempt < o.config.maxAttempts {
      o.currentAttempt := o.currentAttempt + 1;
    }
  }

  /** Whether the result changed the state, and whether it did so for good. */
  method DetectChanges(o: Monitored) returns (stateChange: bool, hardStateChange: bool)
    ensures stateChange == StateChanged(ProgressOf(o))
    ensures hardStateChange == HardStateChanged(o.config.maxAttempts, ProgressOf(o))
  {
    stateChange := o.currentState != o.lastState;
    hardStateChange := false;
    if o.hostProblemAtLastCheck && o.currentState == OK {
      hardStateChange := true;
    }
    if o.currentAttempt >= o.config.maxAttempts && o.currentState != o.lastHardState {
      hardStateChange := true;
    }
  }

  /** A changed state resets notification times and, as far as its kind asks for it, the acknowledgement. */
  method ResetAfterChange(o: Monitored, stateChange: bool, hardStateChange: bool)
    requires stateChange == StateChanged(ProgressOf(o))
    requires hardStateChange == HardStateChanged(o.config.maxAttempts, ProgressOf(o))
    modifies o`lastNotification, o`nextNotification, o`noMoreNotifications, o`acknowledged, o`acknowledgement
    ensures AckOf(o) == AckAfterChange(o.config.maxAttempts, ProgressOf(o), old(AckOf(o)))
    ensures o.AlertView() == AlertAfterChange(o.config.maxAttempts, ProgressOf(o), old(o.AlertView()))
  {
    hide HardStateChanged;
    if stateChange || hardStateChange {
      o.lastNotification, o.nextNotification := 0, 0;
      o.noMoreNotifications := false;
      if o.acknowledgement == NormalAcknowledgement && (stateChange || !hardStateChange) {
        o.acknowledged := false;
        o.acknowledgement := NoAcknowledgement;
      } else if o.acknowledgement == StickyAcknowledgement && o.currentState == OK {
        o.acknowledged := false;
        o.acknowledgement := NoAcknowledgement;
      }
    }
  }

  /** A changed state draws a new event id; a problem that begins draws a problem id, which its end retires. */
  method DrawIds(o: Monitored, counters: Counters, stateChange: bool)
    requires stateChange == StateChanged(ProgressOf(o))
    modifies o`currentEventId, o`lastEventId, o`currentProblemId, o`lastProblemId, counters
    ensures IdsOf(o) ==
      IdsAfterChange(ProgressOf(o), old(IdsOf(o)), old(counters.nextEventId), old(counters.nextProblemId))
    ensures counters.nextEventId == old(counters.nextEventId) + if stateChange then 1 else 0
    ensures counters.nextProblemId == old(counters.nextProblemId) + if stateChange && o.lastState == OK then 1 else 0
  {
    if stateChange {
      o.lastEventId := o.currentEventId;
      o.currentEventId := counters.nextEventId;
      counters.nextEventId := counters.nextEventId + 1;
      if o.lastState == OK {
        o.currentProblemId := counters.nextProblemId;
        counters.nextProblemId := counters.nextProblemId + 1;
      }
      if o.currentState == OK {
        o.lastProblemId := o.currentProblemId;
        o.currentProblemId := 0;
      }
    }
  }

  /** check_for_service_flapping, as far as it sends notifications. */
  method CheckFlapping(o: Monitored, flap: FlapChange) returns (log: seq<Entry>)
    modifies o`number, o`notifiedOn, o`recoveryBeenSent, o`initialNotifTime, o`noMoreNotifications,
             o`lastNotification, o`nextNotification
    ensures (o.AlertView(), log) == ServiceFlapNotices(o.config, o.StatusView(), old(o.AlertView()), flap)
  {
    hide FlapNotices;
    if !o.hard && o.currentState != OK {
      return [];
    }
    log := SendFlapNotices(o, flap);
  }

  /** The check for flapping and the notification of a hard state. */
  method Announce(o: Monitored, flap: FlapChange, x: Circumstances) returns (log: seq<Entry>)
    modifies o`number, o`notifiedOn, o`recoveryBeenSent, o`initialNotifTime, o`noMoreNotifications,
             o`lastNotification, o`nextNotification
    ensures (o.AlertView(), log) == Announced(o.config, o.StatusView(), old(o.AlertView()), flap, x)
  {
    hide ServiceFlapNotices, Notify;
    log := CheckFlapping(o, flap);
    var entry := SendNotification(o, x, Normal, NONE);
    log := log + [entry];
  }

  /** A recovery is announced: at once when it is hard, or on a later OK result as long as it has not been sent. */
  method AnnounceRecovery(o: Monitored, stateChange: bool, hardStateChange: bool, flap: FlapChange, x: Circumstances)
    returns (log: seq<Entry>)
    requires o.currentState == OK && !o.acknowledged
    requires stateChange == StateChanged(ProgressOf(o))
    requires hardStateChange == HardStateChanged(o.config.maxAttempts, ProgressOf(o))
    modifies o`hard, o`number, o`notifiedOn, o`recoveryBeenSent, o`initialNotifTime, o`noMoreNotifications,
             o`lastNotification, o`nextNotification
    ensures (o.AlertView(), log) == RecoveryAlert(o.config, old(ProgressOf(o)), old(o.AlertView()), flap, x)
    ensures OkProgress(ProgressOf(o)) == OkProgress(old(ProgressOf(o)))
  {
    hide Notify, HardStateChanged, Announced;
    log := [];
    if hardStateChange {
      o.hard := true;
      o.recoveryBeenSent := false;
      o.initialNotifTime := 0;
      log := Announce(o, flap, x);
      return;
    } else if stateChange {
      o.hard := false;
    }
    if !o.recoveryBeenSent {
      var entry := SendNotification(o, x, Normal, NONE);
      log := [entry];
    }
  }

  /** At the end of an OK result the service is hard and at its first attempt. */
  method ResetProgress(o: Monitored)
    requires o.currentState == OK
    modifies o`hostProblemAtLastCheck, o`currentAttempt, o`hard, o`lastHardState
    ensures ProgressOf(o) == OkProgress(old(ProgressOf(o)))
  {
    o.hostProblemAtLastCheck := false;
    o.currentAttempt := 1;
    o.hard := true;
    o.lastHardState := OK;
  }

  /** Number and flags stay as long as the recovery has not been sent. */
  method ResetAlert(o: Monitored)
    modifies o`lastNotification, o`nextNotification, o`noMoreNotifications, o`number, o`notifiedOn, o`initialNotifTime
    ensures o.AlertView() == AlertAfterOk(old(o.AlertView()))
  {
    o.lastNotification := 0;
    o.nextNotification := 0;
    if o.recoveryBeenSent {
      o.number := 0;
      o.notifiedOn := {};
      o.initialNotifTime := 0;
    }
    o.noMoreNotifications := false;
  }

  /** The logic for an OK result. */
  method HandleOk(o: Monitored, stateChange: bool, hardStateChange: bool, flap: FlapChange, x: Circumstances)
    returns (log: seq<Entry>)
    requires o.currentState == OK
    requires stateChange == StateChanged(ProgressOf(o))
    requires hardStateChange == HardStateChanged(o.config.maxAttempts, ProgressOf(o))
    modifies o`hostProblemAtLastCheck, o`currentAttempt, o`hard, o`lastHardState, o`acknowledged, o`acknowledgement,
             o`number, o`notifiedOn, o`recoveryBeenSent, o`initialNotifTime, o`noMoreNotifications,
             o`lastNotification, o`nextNotification
    ensures ProgressOf(o) == OkProgress(old(ProgressOf(o))) && AckOf(o) == Acknowledged(false, NoAcknowledgement)
    ensures (o.AlertView(), log) == OkAlert(o.config, old(ProgressOf(o)), old(o.AlertView()), flap, x)
  {
    hide RecoveryAlert, AlertAfterOk, HardStateChanged, OkProgress;
    o.acknowledged, o.acknowledgement := false, NoAcknowledgement;
    log := AnnounceRecovery(o, stateChange, hardStateChange, flap, x);
    ResetProgress(o);
    ResetAlert(o);
  }

  /** What the state of the host means for the service. */
  method NoteRoute(o: Monitored, hardChange: bool, routeUp: bool)
    requires hardChange == HardStateChanged(o.config.maxAttempts, ProgressOf(o))
    modifies o`hostProblemAtLastCheck, o`currentAttempt, o`hard, o`lastHardState
    ensures ProgressOf(o) == RouteProgress(o.config.maxAttempts, old(ProgressOf(o)), routeUp)
  {
    hide HardStateChanged;
    var hardStateChange := hardChange;
    if !routeUp {
      if o.lastHardState != o.currentState {
        hardStateChange := true;
      }
      if hardStateChange {
        o.hard := true;
        o.lastHardState := o.currentState;
      }
      o.hostProblemAtLastCheck := true;
    } else if o.hostProblemAtLastCheck {
      o.hostProblemAtLastCheck := false;
      if !o.hard {
        o.currentAttempt := 1;
      }
    }
  }

  /** The logic for a non-OK result, once the route to the host is known. */
  method HandleProblem(o: Monitored, hardStateChange: bool, routeUp: bool, flap: FlapChange, x: Circumstances)
    returns (log: seq<Entry>, flappingChecked: bool)
    requires hardStateChange == HardStateChanged(o.config.maxAttempts, ProgressOf(o))
    modifies o`hostProblemAtLastCheck, o`currentAttempt, o`hard, o`lastHardState,
             o`number, o`notifiedOn, o`recoveryBeenSent, o`initialNotifTime, o`noMoreNotifications,
             o`lastNotification, o`nextNotification
    ensures ProgressOf(o) == ProblemProgress(o.config.maxAttempts, old(ProgressOf(o)), routeUp)
    ensures (o.AlertView(), log) ==
      ProblemAlert(o.config, old(ProgressOf(o)), old(AckOf(o)), old(o.AlertView()), routeUp, flap, x)
    ensures flappingChecked == MaxedOut(o.config.maxAttempts, old(ProgressOf(o)), routeUp)
  {
    hide Announced, HardStateChanged;
    log, flappingChecked := [], false;
    NoteRoute(o, hardStateChange, routeUp);
    if o.currentAttempt < o.config.maxAttempts {
      if routeUp {
        o.hard := false;
      }
    } else {
      o.hard := true;
      log := Announce(o, flap, x);
      flappingChecked := true;
      o.lastHardState := o.currentState;
    }
  }

  /** The first half of the handler, up to the branch on the new state. */
  method NoteResult(o: Monitored, r: CheckResult, counters: Counters) returns (stateChange: bool, hardStateChange: bool)
    modifies o, counters
    ensures StateOf(o) ==
      Noted(o.config, old(StateOf(o)), ResultState(r), old(counters.nextEventId), old(counters.nextProblemId))
    ensures stateChange == StateChanged(ProgressOf(o))
    ensures hardStateChange == HardStateChanged(o.config.maxAttempts, ProgressOf(o))
    ensures (counters.nextEventId, counters.nextProblemId) ==
      Drawn(old(o.currentState), ResultState(r), old(counters.nextEventId), old(counters.nextProblemId))
  {
    hide ResultState, AckAfterChange, AlertAfterChange, IdsAfterChange, HardStateChanged;
    TakeOver(o, r);
    stateChange, hardStateChange := DetectChanges(o);
    ResetAfterChange(o, stateChange, hardStateChange);
    DrawIds(o, counters, stateChange);
  }

  /** The second half: the recovery logic or the problem logic. */
  method ActOnResult(o: Monitored, r: CheckResult, stateChange: bool, hardStateChange: bool) returns (log: seq<Entry>)
    requires stateChange == StateChanged(ProgressOf(o))
    requires hardStateChange == HardStateChanged(o.config.maxAttempts, ProgressOf(o))
    modifies o
    ensures (StateOf(o), log) == Handled(o.config, old(StateOf(o)), RouteUp(r), r.flap, r.circumstances)
  {
    hide Acted, ServiceFlapNotices, StateChanged, HardStateChanged, MaxedOut;
    var flappingChecked;
    log, flappingChecked := Branch(o, r, stateChange, hardStateChange);
    if !flappingChecked {
      var notices := CheckFlapping(o, r.flap);
      log := log + notices;
    }
  }

  method Branch(o: Monitored, r: CheckResult, stateChange: bool, hardStateChange: bool)
    returns (log: seq<Entry>, flappingChecked: bool)
    requires stateChange == StateChanged(ProgressOf(o))
    requires hardStateChange == HardStateChanged(o.config.maxAttempts, ProgressOf(o))
    modifies o
    ensures (StateOf(o), log) == Acted(o.config, old(StateOf(o)), RouteUp(r), r.flap, r.circumstances)
    ensures flappingChecked == FlappingChecked(o.config.maxAttempts, old(ProgressOf(o)), RouteUp(r))
  {
    hide OkAlert, ProblemAlert, ProblemProgress, OkProgress, StateChanged, HardStateChanged, MaxedOut;
    if o.currentState == OK {
      log := HandleOk(o, stateChange, hardStateChange, r.flap, r.circumstances);
      flappingChecked := hardStateChange;
    } else {
      var routeUp := if r.aggressive then r.checkedRouteUp else r.hostUp;
      log, flappingChecked := HandleProblem(o, hardStateChange, routeUp, r.flap, r.circumstances);
    }
  }

  /** handle_async_service_check_result. */
  method HandleAsyncServiceCheckResult(o: Monitored, r: CheckResult, counters: Counters)
    returns (accepted: bool, log: seq<Entry>)
    modifies o, counters
    ensures accepted == !Discarded(r)
    ensures !accepted ==> unchanged(o) && unchanged(counters) && log == []
    ensures accepted ==>
      (StateOf(o), log) ==
        HandleResult(o.config, old(StateOf(o)), r, old(counters.nextEventId), old(counters.nextProblemId))
    ensures accepted ==>
      (counters.nextEventId, counters.nextProblemId) ==
        Drawn(old(o.currentState), ResultState(r), old(counters.nextEventId), old(counters.nextProblemId))
  {
    hide Noted, Handled, StateOf, HardStateChanged, StateChanged, RouteUp, Drawn;
    if r.passive {
      if !r.passiveAccepted {
        return false, [];
      }
    }
    if r.freshnessCheck && r.alreadyFresh {
      return false, [];
    }
    accepted := true;
    var stateChange, hardStateChange := NoteResult(o, r, counters);
    log := ActOnResult(o, r, stateChange, hardStateChange);
  }
}
