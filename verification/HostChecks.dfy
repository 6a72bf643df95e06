/** Results of host checks: attempts, soft and hard states, DOWN against UNREACHABLE, and the notifications a state
    causes (process_host_check_result_3x in src/checks.cc, handle_host_state in src/sehandlers.cc). */
module HostChecks {
  import opened MonitoredObjects
  import opened Notifications

  /** Where a host stands. */
  datatype HostProgress = HostProgress(
    currentState: int, lastState: int, hard: bool, lastHardState: int, currentAttempt: int)

  datatype HostState = HostState(progress: HostProgress, ack: Acknowledged, alert: Alert, ids: Ids)

  function ProgressOf(o: Monitored): HostProgress
    reads o
  {
    HostProgress(o.currentState, o.lastState, o.hard, o.lastHardState, o.currentAttempt)
  }

  function StateOf(o: Monitored): HostState
    reads o
  {
    HostState(ProgressOf(o), AckOf(o), o.AlertView(), IdsOf(o))
  }

  /** A check result and the settings it is read under; flap is what flap detection makes of it. */
  datatype HostResult = HostResult(
    returnCode: int, exitedOk: bool, passive: bool, passiveAccepted: bool, freshnessCheck: bool, alreadyFresh: bool,
    hasCommand: bool, aggressive: bool, passivesAreSoft: bool, translatePassives: bool,
    flap: FlapChange, circumstances: Circumstances)

  /** What a serial check of a listed parent said; a parent that was never resolved says nothing. */
  datatype Answer = NoAnswer | Answer(state: int)

  predicate Discarded(r: HostResult) {
    (r.passive && !r.passiveAccepted) || (r.freshnessCheck && r.alreadyFresh)
  }

  /** Passive results carry their state; an active one says UP or not UP. */
  function ResultState(r: HostResult): int {
    if r.passive then r.returnCode
    else if !r.hasCommand then UP
    else if !r.exitedOk || r.returnCode < 0 || r.returnCode > 3 then DOWN
    else if r.returnCode == OK || (r.returnCode == WARNING && !r.aggressive) then UP
    else DOWN
  }

  /** A result says that the host is UP: by its own word if it is passive; if it is active, because there is no
      command to run, or because that ended well with OK, or with WARNING while host checking is not aggressive. */
  predicate ReportsUp(r: HostResult) {
    if r.passive then r.returnCode == UP
    else !r.hasCommand || (r.exitedOk && (r.returnCode == 0 || (r.returnCode == 1 && !r.aggressive)))
  }

  // ----- attempts -----

  function AdjustedAttempt(max: nat, p: HostProgress, active: bool): int {
    if p.hard || (active && p.currentState == UP) then 1
    else if p.currentAttempt < max then p.currentAttempt + 1
    else p.currentAttempt
  }

  /** adjust_host_check_attempt_3x, called before an active check and within a soft passive result. */
  method AdjustHostCheckAttempt(o: Monitored, active: bool)
    modifies o`currentAttempt
    ensures o.currentAttempt == AdjustedAttempt(o.config.maxAttempts, old(ProgressOf(o)), active)
  {
    if o.hard {
      o.currentAttempt := 1;
    } else if active && !o.hard && o.currentState == UP {
      o.currentAttempt := 1;
    } else if o.currentAttempt < o.config.maxAttempts {
      o.currentAttempt := o.currentAttempt + 1;
    }
  }

  // ----- reachability -----

  predicate AnyParentUp(parents: seq<Monitored?>)
    reads parents
  {
    exists i :: 0 <= i < |parents| && parents[i] != null && parents[i].currentState == UP
  }

  predicate AnyAnswerUp(answers: seq<Answer>) {
    Answer(UP) in answers
  }

  /** A host that is not UP is DOWN when it has no parents or a parent that is UP, and UNREACHABLE otherwise. */
  function Verdict(noParents: bool, someUp: bool): int {
    if noParents || someUp then DOWN else UNREACHABLE
  }

  /** The way to a host is open: it has no parents, or one of them was resolved and is UP. */
  predicate Reachable(parents: seq<Monitored?>)
    reads parents
  {
    parents == [] || exists p: Monitored :: p in parents && p.currentState == UP
  }

  /** The same by the answers of serial checks of the parents. */
  predicate AnsweredReachable(answers: seq<Answer>) {
    answers == [] || exists i :: 0 <= i < |answers| && answers[i].Answer? && answers[i].state == UP
  }

  /** determine_host_reachability. */
  method DetermineHostReachability(o: Monitored, parents: seq<Monitored?>) returns (state: int)
    ensures state == if o.currentState == UP then UP else Verdict(|parents| == 0, AnyParentUp(parents))
    ensures state == UP <==> o.currentState == UP
    ensures state == DOWN <==> o.currentState != UP && Reachable(parents)
    ensures state == UNREACHABLE <==> o.currentState != UP && !Reachable(parents)
  {
    state := DOWN;
    if o.currentState == UP {
      return UP;
    } else if |parents| == 0 {
      return DOWN;
    }
    var i := 0;
    while i < |parents|
      invariant 0 <= i <= |parents|
      invariant forall j :: 0 <= j < i && parents[j] != null ==> parents[j].currentState != UP
    {
      if parents[i] != null {
        if parents[i].currentState == UP {
          return DOWN;
        }
      }
      i := i + 1;
    }
    state := UNREACHABLE;
  }

  /** The loop over serial parent checks of a host with a single attempt: it stops at the first parent found UP. */
  method CheckParents(answers: seq<Answer>) returns (state: int, checked: nat)
    ensures state == Verdict(|answers| == 0, AnyAnswerUp(answers))
    ensures state == if AnsweredReachable(answers) then DOWN else UNREACHABLE
    ensures checked <= |answers| && !AnyAnswerUp(answers[..checked])
    ensures checked < |answers| ==> answers[checked] == Answer(UP)
  {
    checked := 0;
    while checked < |answers|
      invariant checked <= |answers|
      invariant !AnyAnswerUp(answers[..checked])
    {
      if answers[checked].Answer? {
        if answers[checked].state == UP {
          return DOWN, checked;
        }
      }
      assert answers[..checked + 1] == answers[..checked] + [answers[checked]];
      checked := checked + 1;
    }
    assert answers[..checked] == answers;
    state := if |answers| == 0 then DOWN else UNREACHABLE;
  }

  // ----- the new state -----

  /** The state before the result is saved. */
  function Saved(p: HostProgress): HostProgress {
    p.(lastState := p.currentState, lastHardState := if p.hard then p.currentState else p.lastHardState)
  }

  /** By default a passive result is final. */
  predicate Final(r: HostResult) { r.passive && !r.passivesAreSoft }

  function Adjusted(max: nat, p: HostProgress, r: HostResult): HostProgress {
    if r.passive && r.passivesAreSoft then p.(currentAttempt := AdjustedAttempt(max, p, false)) else p
  }

  function Judged(r: HostResult, verdict: int): int {
    if !r.passive || r.translatePassives then verdict else ResultState(r)
  }

  function Processed(max: nat, p: HostProgress, r: HostResult, verdict: int): HostProgress {
    if ResultState(r) == UP then
      p.(currentState := UP, hard := p.currentState == UP || p.hard || Final(r))
    else if max == 1 && p.currentState == UP then
      p.(currentState := Judged(r, verdict), hard := true)
    else if Final(r) then
      p.(currentState := Judged(r, verdict), hard := true, currentAttempt := 1)
    else
      p.(currentState := Judged(r, verdict),
         hard := p.currentState != UP && (p.currentAttempt == max || p.currentAttempt == 1))
  }

  /** Parents are checked serially only when the first failure of an active check is final. */
  predicate NeedsSerialChecks(max: nat, state: int, r: HostResult) {
    max == 1 && state == UP && !r.passive
  }

  /** The verdict on a host found not UP while it was in the given state. */
  function RouteVerdict(max: nat, state: int, parents: seq<Monitored?>, answers: seq<Answer>, r: HostResult): int
    reads parents
  {
    Verdict(|parents| == 0, if NeedsSerialChecks(max, state, r) then AnyAnswerUp(answers) else AnyParentUp(parents))
  }

  /** The first half of process_host_check_result_3x. The graph of hosts has no cycles, so a host is not its own
      parent. */
  method ProcessState(o: Monitored, parents: seq<Monitored?>, answers: seq<Answer>, r: HostResult, newState: int)
    requires newState == ResultState(r) && |answers| == |parents| && o !in parents
    modifies o`currentState, o`hard, o`currentAttempt
    ensures ProgressOf(o) == Processed(o.config.maxAttempts, old(ProgressOf(o)), r,
      RouteVerdict(o.config.maxAttempts, old(o.currentState), parents, answers, r))
  {
    hide ResultState, AnyParentUp, AnyAnswerUp;
    if o.currentState != UP {
      if newState == UP {
        o.currentState := UP;
        o.hard := o.hard || (r.passive && !r.passivesAreSoft);
      } else {
        if r.passive && !r.passivesAreSoft {
          o.hard := true;
          o.currentAttempt := 1;
        } else if o.currentAttempt == o.config.maxAttempts {
          o.hard := true;
        } else if o.currentAttempt == 1 {
          o.hard := true;
        } else {
          o.hard := false;
        }
        SetProblemState(o, parents, r, newState);
      }
    } else {
      if newState == UP {
        o.currentState := UP;
        o.hard := true;
      } else if o.config.maxAttempts == 1 {
        o.hard := true;
        if !r.passive {
          var state, _ := CheckParents(answers);
          o.currentState := state;
        } else {
          SetProblemState(o, parents, r, newState);
        }
      } else {
        if !r.passive || r.passivesAreSoft {
          o.hard := false;
        } else {
          o.hard := true;
          o.currentAttempt := 1;
        }
        SetProblemState(o, parents, r, newState);
      }
    }
  }

  /** The state of a host that is not UP, translated between DOWN and UNREACHABLE where that is asked for. */
  method SetProblemState(o: Monitored, parents: seq<Monitored?>, r: HostResult, newState: int)
    requires newState == ResultState(r) && newState != UP && o !in parents
    modifies o`currentState
    ensures o.currentState == Judged(r, Verdict(|parents| == 0, AnyParentUp(parents)))
    ensures AnyParentUp(parents) == old(AnyParentUp(parents))
  {
    hide ResultState;
    o.currentState := newState;
    if !r.passive || r.translatePassives {
      var state := DetermineHostReachability(o, parents);
      o.currentState := state;
    }
  }

  // ----- what the new state causes -----

  predicate HostChanged(p: HostProgress) {
    p.lastState != p.currentState || p.lastHardState != p.currentState || (p.currentState == UP && !p.hard)
  }

  function IdsAfterChange(p: HostProgress, ids: Ids, nextEvent: nat, nextProblem: nat): Ids {
    if !HostChanged(p) then ids else
    var problem := if p.lastState == UP then nextProblem else ids.currentProblem;
    if p.currentState == UP then Ids(nextEvent, ids.currentEvent, 0, problem)
    else Ids(nextEvent, ids.currentEvent, problem, ids.lastProblem)
  }

  function AckAfterChange(p: HostProgress, ack: Acknowledged): Acknowledged {
    if HostChanged(p) &&
       (ack.kind == NormalAcknowledgement || (ack.kind == StickyAcknowledgement && p.currentState == UP))
    then Acknowledged(false, NoAcknowledgement) else ack
  }

  /** A change resets the times of notifications, and a recovery becomes due. */
  function AlertAfterChange(p: HostProgress, a: Alert): Alert {
    if !HostChanged(p) then a else
    var quiet := a.(lastNotification := 0, nextNotification := 0, noMoreNotifications := false);
    if p.currentState == UP then quiet.(recoveryBeenSent := false, initialNotifTime := 0) else quiet
  }

  /** A hard state is notified about, except an UP state whose recovery was sent. */
  predicate Notifies(p: HostProgress, a: Alert) {
    p.hard && (p.currentState != UP || !a.recoveryBeenSent)
  }

  function HostAlert(c: Config, p: HostProgress, ack: Acknowledged, a: Alert, x: Circumstances): (Alert, seq<Entry>) {
    var (sent, log) :=
      if Notifies(p, a) then
        var (after, entry) := Notify(c, Status(p.currentState, true, ack.flag), a, x, Normal, NONE);
        (after, [entry])
      else (a, []);
    var answered := p.currentState == UP && !a.recoveryBeenSent && sent.recoveryBeenSent;
    (if answered then sent.(number := 0, notifiedOn := {}) else sent, log)
  }

  /** What one accepted check result does to a host. */
  function HandleResult(c: Config, s: HostState, r: HostResult, verdict: int, nextEvent: nat, nextProblem: nat)
    : (HostState, seq<Entry>)
  {
    var p := ProcessedResult(c, s.progress, r, verdict);
    var (caused, log) := Caused(c, HostState(p, s.ack, s.alert, s.ids), r.circumstances, nextEvent, nextProblem);
    var (after, notices) := FlapNotices(c, StatusOf(caused), caused.alert, r.flap);
    (caused.(alert := after), log + notices)
  }

  /** The progress a result leads to before anything is made of it. */
  function ProcessedResult(c: Config, p: HostProgress, r: HostResult, verdict: int): HostProgress {
    Processed(c.maxAttempts, Adjusted(c.maxAttempts, Saved(p), r), r, verdict)
  }

  function StatusOf(s: HostState): Status {
    Status(s.progress.currentState, s.progress.hard, s.ack.flag)
  }

  /** The counters after a processed state: a change draws an event id, and a problem id if the host was UP. */
  function Drawn(p: HostProgress, nextEvent: nat, nextProblem: nat): (nat, nat) {
    (if HostChanged(p) then nextEvent + 1 else nextEvent,
     if HostChanged(p) && p.lastState == UP then nextProblem + 1 else nextProblem)
  }

  /** What handle_host_state makes of a processed state. */
  function Caused(c: Config, s: HostState, x: Circumstances, nextEvent: nat, nextProblem: nat)
    : (HostState, seq<Entry>)
  {
    var p := s.progress;
    var ack := AckAfterChange(p, s.ack);
    var (alert, log) := HostAlert(c, p, ack, AlertAfterChange(p, s.alert), x);
    (HostState(if HostChanged(p) && p.currentState == UP then p.(currentAttempt := 1) else p,
               ack, alert, IdsAfterChange(p, s.ids, nextEvent, nextProblem)), log)
  }

  /** A changed state draws ids; a problem that begins draws a problem id, which its end retires. */
  method DrawIds(o: Monitored, counters: Counters)
    requires HostChanged(ProgressOf(o))
    modifies o`currentEventId, o`lastEventId, o`currentProblemId, o`lastProblemId, counters
    ensures IdsOf(o) ==
      IdsAfterChange(ProgressOf(o), old(IdsOf(o)), old(counters.nextEventId), old(counters.nextProblemId))
    ensures counters.nextEventId == old(counters.nextEventId) + 1
    ensures counters.nextProblemId == old(counters.nextProblemId) + if o.lastState == UP then 1 else 0
  {
    o.lastEventId := o.currentEventId;
    o.currentEventId := counters.nextEventId;
    counters.nextEventId := counters.nextEventId + 1;
    if o.lastState == UP {
      o.currentProblemId := counters.nextProblemId;
      counters.nextProblemId := counters.nextProblemId + 1;
    }
    if o.currentState == UP {
      o.lastProblemId := o.currentProblemId;
      o.currentProblemId := 0;
    }
  }

  /** A changed state resets the acknowledgement and the times of notifications. */
  method ResetAfterChange(o: Monitored)
    requires HostChanged(ProgressOf(o))
    modifies o`acknowledged, o`acknowledgement, o`lastNotification, o`nextNotification, o`noMoreNotifications,
             o`recoveryBeenSent, o`initialNotifTime
    ensures AckOf(o) == AckAfterChange(ProgressOf(o), old(AckOf(o)))
    ensures o.AlertView() == AlertAfterChange(ProgressOf(o), old(o.AlertView()))
    ensures o.currentState == UP ==> !o.recoveryBeenSent
  {
    if o.acknowledgement == NormalAcknowledgement {
      o.acknowledged := false;
      o.acknowledgement := NoAcknowledgement;
    } else if o.acknowledgement == StickyAcknowledgement && o.currentState == UP {
      o.acknowledged := false;
      o.acknowledgement := NoAcknowledgement;
    }
    o.lastNotification, o.nextNotification := 0, 0;
    o.noMoreNotifications := false;
    if o.currentState == UP {
      o.recoveryBeenSent := false;
      o.initialNotifTime := 0;
    }
  }

  /** What is left to do about a changed state once ids, acknowledgement and times are reset. */
  method AnnounceChange(o: Monitored, x: Circumstances) returns (log: seq<Entry>)
    requires HostChanged(ProgressOf(o)) && (o.currentState == UP ==> !o.recoveryBeenSent)
    modifies o`currentAttempt, o`number, o`notifiedOn, o`recoveryBeenSent, o`initialNotifTime, o`noMoreNotifications,
             o`lastNotification, o`nextNotification
    ensures (o.AlertView(), log) == HostAlert(o.config, old(ProgressOf(o)), AckOf(o), old(o.AlertView()), x)
    ensures o.currentAttempt == if o.currentState == UP then 1 else old(o.currentAttempt)
  {
    hide Notify, HostChanged;
    log := [];
    if o.hard {
      var entry := SendNotification(o, x, Normal, NONE);
      log := [entry];
    }
    if o.currentState == UP {
      o.currentAttempt := 1;
    }
    if o.currentState == UP && o.recoveryBeenSent {
      o.number := 0;
      o.notifiedOn := {};
    }
  }

  /** The branch of handle_host_state for a changed state. */
  method HandleChange(o: Monitored, counters: Counters, x: Circumstances) returns (log: seq<Entry>)
    requires HostChanged(ProgressOf(o))
    modifies o, counters
    ensures (StateOf(o), log) ==
      Caused(o.config, old(StateOf(o)), x, old(counters.nextEventId), old(counters.nextProblemId))
    ensures (counters.nextEventId, counters.nextProblemId) ==
      Drawn(old(ProgressOf(o)), old(counters.nextEventId), old(counters.nextProblemId))
  {
    hide HostChanged, HostAlert, AckAfterChange, AlertAfterChange, IdsAfterChange;
    DrawIds(o, counters);
    ResetAfterChange(o);
    log := AnnounceChange(o, x);
  }

  /** The branch for an unchanged state. */
  method HandleNoChange(o: Monitored, x: Circumstances) returns (log: seq<Entry>)
    requires !HostChanged(ProgressOf(o))
    modifies o`number, o`notifiedOn, o`recoveryBeenSent, o`initialNotifTime, o`noMoreNotifications,
             o`lastNotification, o`nextNotification
    ensures (o.AlertView(), log) == HostAlert(o.config, ProgressOf(o), AckOf(o), old(o.AlertView()), x)
  {
    hide Notify, HostChanged;
    log := [];
    var oldRecoveryBeenSent := o.recoveryBeenSent;
    if (o.currentState != UP || (o.currentState == UP && !o.recoveryBeenSent)) && o.hard {
      var entry := SendNotification(o, x, Normal, NONE);
      log := [entry];
    }
    if !oldRecoveryBeenSent && o.recoveryBeenSent && o.currentState == UP {
      o.number := 0;
      o.notifiedOn := {};
    }
  }

  /** handle_host_state. */
  method HandleHostState(o: Monitored, counters: Counters, x: Circumstances) returns (log: seq<Entry>)
    modifies o, counters
    ensures (StateOf(o), log) ==
      Caused(o.config, old(StateOf(o)), x, old(counters.nextEventId), old(counters.nextProblemId))
    ensures (counters.nextEventId, counters.nextProblemId) ==
      Drawn(old(ProgressOf(o)), old(counters.nextEventId), old(counters.nextProblemId))
  {
    hide HostAlert;
    if o.lastState != o.currentState || o.lastHardState != o.currentState || (o.currentState == UP && !o.hard) {
      log := HandleChange(o, counters, x);
    } else {
      log := HandleNoChange(o, x);
    }
  }

  /** The part of the handler that leads to the processed state. */
  method NoteResult(o: Monitored, parents: seq<Monitored?>, answers: seq<Answer>, r: HostResult)
    requires |answers| == |parents| && o !in parents
    modifies o`lastState, o`lastHardState, o`currentState, o`hard, o`currentAttempt
    ensures ProgressOf(o) ==
      ProcessedResult(o.config, old(ProgressOf(o)), r,
                      RouteVerdict(o.config.maxAttempts, old(o.currentState), parents, answers, r))
  {
    hide Processed, AnyParentUp, AnyAnswerUp, Verdict;
    o.lastState := o.currentState;
    if o.hard {
      o.lastHardState := o.currentState;
    }
    var newState := TranslateResult(r);
    if r.passive && r.passivesAreSoft {
      AdjustHostCheckAttempt(o, false);
    }
    ProcessState(o, parents, answers, r, newState);
  }

  /** process_host_check_result_3x for an accepted result: the state, what it causes, and the check for flapping. */
  method ProcessHostCheckResult(o: Monitored, parents: seq<Monitored?>, answers: seq<Answer>, r: HostResult,
                                counters: Counters)
    returns (log: seq<Entry>)
    requires |answers| == |parents| && o !in parents
    modifies o, counters
    ensures var verdict := old(RouteVerdict(o.config.maxAttempts, o.currentState, parents, answers, r));
      && (StateOf(o), log) ==
           HandleResult(o.config, old(StateOf(o)), r, verdict, old(counters.nextEventId), old(counters.nextProblemId))
      && (counters.nextEventId, counters.nextProblemId) ==
           Drawn(ProcessedResult(o.config, old(ProgressOf(o)), r, verdict),
                 old(counters.nextEventId), old(counters.nextProblemId))
  {
    hide Caused, ProcessedResult, RouteVerdict, FlapNotices, Drawn;
    NoteResult(o, parents, answers, r);
    log := HandleHostState(o, counters, r.circumstances);
    var notices := SendFlapNotices(o, r.flap);
    log := log + notices;
  }

  /** The way to the host is open, as far as the result makes the engine look: the first failure of an active check that
      is its last attempt has the parents checked, and every other failure relies on their last states. */
  predicate WayOpen(max: nat, state: int, parents: seq<Monitored?>, answers: seq<Answer>, r: HostResult)
    reads parents
  {
    if !r.passive && max == 1 && state == UP then AnsweredReachable(answers) else Reachable(parents)
  }

  lemma RouteVerdictMeans(max: nat, state: int, parents: seq<Monitored?>, answers: seq<Answer>, r: HostResult)
    requires |answers| == |parents|
    ensures RouteVerdict(max, state, parents, answers, r) ==
            if WayOpen(max, state, parents, answers, r) then DOWN else UNREACHABLE
  {
  }

  /** A result that does not report the host UP leaves it in the state of the verdict on the route, or in the one a
      passive result carries if these are not translated. */
  lemma ReportedState(c: Config, s: HostState, r: HostResult, verdict: int, nextEvent: nat, nextProblem: nat)
    requires verdict != UP
    ensures HandleResult(c, s, r, verdict, nextEvent, nextProblem).0.progress.currentState ==
            if ReportsUp(r) then UP else if r.passive && !r.translatePassives then r.returnCode else verdict
  {
    hide HostAlert, AckAfterChange, AlertAfterChange, IdsAfterChange, AdjustedAttempt, FlapNotices;
  }

  lemma StateIsShown(o: Monitored)
    ensures StateOf(o).progress.currentState == o.currentState
  {
  }

  /** handle_async_host_check_result_3x. */
  method HandleAsyncHostCheckResult(o: Monitored, parents: seq<Monitored?>, answers: seq<Answer>, r: HostResult,
                                    counters: Counters)
    returns (accepted: bool, log: seq<Entry>)
    requires |answers| == |parents| && o !in parents
    modifies o, counters
    ensures accepted == !Discarded(r)
    ensures !accepted ==> unchanged(o) && unchanged(counters) && log == []
    ensures var verdict := old(RouteVerdict(o.config.maxAttempts, o.currentState, parents, answers, r));
      accepted ==>
        && (StateOf(o), log) ==
             HandleResult(o.config, old(StateOf(o)), r, verdict, old(counters.nextEventId), old(counters.nextProblemId))
        && (counters.nextEventId, counters.nextProblemId) ==
             Drawn(ProcessedResult(o.config, old(ProgressOf(o)), r, verdict),
                   old(counters.nextEventId), old(counters.nextProblemId))
    ensures accepted && ReportsUp(r) ==> o.currentState == UP
    ensures accepted && !ReportsUp(r) ==>
      o.currentState == if r.passive && !r.translatePassives then r.returnCode
                        else if old(WayOpen(o.config.maxAttempts, o.currentState, parents, answers, r)) then DOWN
                        else UNREACHABLE
  {
    hide HandleResult, ProcessedResult, RouteVerdict, StateOf, Drawn, WayOpen, ReportsUp;
    RouteVerdictMeans(o.config.maxAttempts, o.currentState, parents, answers, r);
    ReportedState(o.config, StateOf(o), r, RouteVerdict(o.config.maxAttempts, o.currentState, parents, answers, r),
                  counters.nextEventId, counters.nextProblemId);
    if r.passive {
      if !r.passiveAccepted {
        return false, [];
      }
    }
    if r.freshnessCheck && r.alreadyFresh {
      return false, [];
    }
    accepted := true;
    log := ProcessHostCheckResult(o, parents, answers, r, counters);
    assert o.currentState == StateOf(o).progress.currentState by {
      StateIsShown(o);
    }
  }

  /** The return code of an active check is translated to UP or DOWN. */
  method TranslateResult(r: HostResult) returns (result: int)
    ensures result == ResultState(r)
    ensures result == UP <==> ReportsUp(r)
    ensures result != UP ==> result == if r.passive then r.returnCode else DOWN
  {
    result := r.returnCode;
    if !r.passive {
      if !r.exitedOk {
        result := UNKNOWN;
      } else if r.returnCode < 0 || r.returnCode > 3 {
        result := UNKNOWN;
      }
      if !r.hasCommand {
        result := OK;
      }
    }
    if !r.passive {
      if !r.aggressive && result == WARNING {
        result := OK;
      }
      if result == OK {
        result := UP;
      } else {
        result := DOWN;
      }
    }
  }
}
