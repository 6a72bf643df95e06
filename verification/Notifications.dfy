/** Sending notifications about a host or a service: service_notification and host_notification with their
    viability checks (src/notifications.cc). The two run the same steps; the differences are marked. */
module Notifications {

  import opened MonitoredObjects

  const ONE_YEAR := 60 * 60 * 24 * 365

  datatype Kind = Normal | Acknowledgement | Flapping | Downtime | Custom

  datatype Broker = Proceed | Cancel | Override

  /** What surrounds one attempt: the clock, switches and filters outside the object, the answer of the event
      broker, and what becomes of the contacts. hostUp is true for hosts. contacts tells whether the list is
      non-empty, and notified counts the contacts that were notified. */
  datatype Circumstances = Circumstances(
    time: int, enabled: bool, inPeriod: bool, nextValidTime: int, notificationsEnabled: bool,
    dependenciesOk: bool, flapping: bool, downtime: bool, hostDowntime: bool, hostUp: bool,
    broker: Broker, contacts: bool, notified: nat, nextTime: int, noMore: bool)

  /** What an attempt came to. */
  datatype Outcome = NotViable | Stopped | Reached(notified: nat)

  /** A record of one attempt; number is the notification number while it was under way, and atFlapEnd marks the
      normal attempt that the end of flapping makes. */
  datatype Entry = Entry(kind: Kind, time: int, state: int, number: int, outcome: Outcome, atFlapEnd: bool)

  datatype Options = Options(forced: bool, increment: bool)

  const NONE := Options(false, false)

  // ----- viability -----

  /** The filters a normal notification passes before its timing is looked at. */
  predicate PassesFilters(c: Config, s: Status, a: Alert, x: Circumstances) {
    && s.hard && !s.acknowledged && x.dependenciesOk
    && s.currentState in c.notifyOn
    && (s.currentState == OK ==> a.notifiedOn != {})
  }

  /** The first notification of a problem, and a recovery that has not been sent, are subject to a delay. */
  predicate SubjectToDelay(s: Status, a: Alert) {
    a.number == 0 || (s.currentState == OK && !a.recoveryBeenSent)
  }

  function DelayStart(s: Status, a: Alert, x: Circumstances): int {
    if SubjectToDelay(s, a) && a.initialNotifTime == 0 then x.time else a.initialNotifTime
  }

  predicate PassesDelay(c: Config, s: Status, a: Alert, x: Circumstances) {
    SubjectToDelay(s, a) ==>
      x.time >= DelayStart(s, a, x) +
        (if s.currentState != OK then c.firstNotificationDelay else c.recoveryNotificationDelay)
  }

  predicate PassesProblemRest(c: Config, a: Alert, x: Circumstances) {
    && !a.noMoreNotifications && (c.isService ==> x.hostUp)
    && (x.time >= a.nextNotification || (c.isService && c.isVolatile))
  }

  predicate PassesRest(c: Config, s: Status, a: Alert, x: Circumstances) {
    && !x.flapping && !x.downtime && (c.isService ==> !x.hostDowntime)
    && if s.currentState == OK then c.isService ==> a.number > 0 else PassesProblemRest(c, a, x)
  }

  predicate Viable(c: Config, s: Status, a: Alert, x: Circumstances, kind: Kind, options: Options) {
    options.forced ||
    (x.enabled && x.inPeriod && x.notificationsEnabled &&
     match kind
     case Custom => !x.downtime && (c.isService ==> !x.hostDowntime)
     case Acknowledgement => s.currentState != OK
     case Flapping => c.notifyOnFlapping && !x.downtime && (c.isService ==> !x.hostDowntime)
     case Downtime => c.notifyOnDowntime && !x.downtime
     case Normal => PassesFilters(c, s, a, x) && PassesDelay(c, s, a, x) && PassesRest(c, s, a, x))
  }

  /** When a normal notification outside the period may be tried again. */
  function NextInPeriod(x: Circumstances): int {
    if x.nextValidTime == 0 then x.time + ONE_YEAR else x.nextValidTime
  }

  /** What the check itself leaves behind: outside the period the time of the next notification, and for a
      normal one that reaches the delay test the time the delay is counted from. */
  function AfterCheck(c: Config, s: Status, a: Alert, x: Circumstances, kind: Kind, options: Options): Alert {
    if options.forced || !x.enabled || kind != Normal then a
    else if !x.inPeriod then a.(nextNotification := NextInPeriod(x))
    else if x.notificationsEnabled && PassesFilters(c, s, a, x) then a.(initialNotifTime := DelayStart(s, a, x))
    else a
  }

  /** check_service_notification_viability and check_host_notification_viability, test by test. */
  method CheckNotificationViability(o: Monitored, x: Circumstances, kind: Kind, options: Options) returns (viable: bool)
    modifies o`initialNotifTime, o`nextNotification
    ensures viable == Viable(o.config, o.StatusView(), old(o.AlertView()), x, kind, options)
    ensures o.AlertView() == AfterCheck(o.config, o.StatusView(), old(o.AlertView()), x, kind, options)
  {
    var c := o.config;
    if options.forced {
      return true;
    }
    if !x.enabled {
      return false;
    }
    if !x.inPeriod {
      if kind == Normal {
        if x.nextValidTime == 0 {
          o.nextNotification := x.time + 60 * 60 * 24 * 365;
        } else {
          o.nextNotification := x.nextValidTime;
        }
      }
      return false;
    }
    if !x.notificationsEnabled {
      return false;
    }
    if kind == Custom {
      return !(x.downtime || (c.isService && x.hostDowntime));
    }
    if kind == Acknowledgement {
      return o.currentState != OK;
    }
    if kind == Flapping {
      if !c.notifyOnFlapping {
        return false;
      }
      return !(x.downtime || (c.isService && x.hostDowntime));
    }
    if kind == Downtime {
      if !c.notifyOnDowntime {
        return false;
      }
      return !x.downtime;
    }
    if !o.hard {
      return false;
    }
    if o.acknowledged {
      return false;
    }
    if !x.dependenciesOk {
      return false;
    }
    if o.currentState !in c.notifyOn {
      return false;
    }
    if o.currentState == OK && o.notifiedOn == {} {
      return false;
    }
    if o.number == 0 || (o.currentState == OK && !o.recoveryBeenSent) {
      if o.initialNotifTime == 0 {
        o.initialNotifTime := x.time;
      }
      var delay := if o.currentState != OK then c.firstNotificationDelay else c.recoveryNotificationDelay;
      if x.time < o.initialNotifTime + delay {
        return false;
      }
    }
    if x.flapping {
      return false;
    }
    if x.downtime {
      return false;
    }
    if c.isService && x.hostDowntime {
      return false;
    }
    if o.currentState == OK {
      return if c.isService then o.number > 0 else true;
    }
    if o.noMoreNotifications {
      return false;
    }
    if c.isService && !x.hostUp {
      return false;
    }
    if x.time < o.nextNotification && !(c.isService && c.isVolatile) {
      return false;
    }
    return true;
  }

  // ----- the notification -----

  predicate Increments(kind: Kind, options: Options) { kind == Normal || options.increment }

  /** An attempt that reached its contacts: the number went up for good only if a normal notification found a
      contact to notify, or the attempt was told to raise it and the contact list was not empty. */
  function Counted(state: int, a: Alert, x: Circumstances, kind: Kind, options: Options): Alert {
    if kind == Normal && x.contacts && x.notified > 0 then
      a.(number := a.number + 1, nextNotification := x.nextTime, noMoreNotifications := x.noMore,
         lastNotification := x.time, notifiedOn := if state == OK then a.notifiedOn else a.notifiedOn + {state})
    else if kind != Normal && options.increment && x.contacts then a.(number := a.number + 1)
    else a
  }

  /** In the OK state it also counts as the recovery notification, whatever it was about. */
  function AfterContacts(state: int, a: Alert, x: Circumstances, kind: Kind, options: Options): Alert {
    var done := Counted(state, a, x, kind, options);
    if state == OK then done.(recoveryBeenSent := true) else done
  }

  function Notify(c: Config, s: Status, a: Alert, x: Circumstances, kind: Kind, options: Options): (Alert, Entry) {
    var checked := AfterCheck(c, s, a, x, kind, options);
    var raised := if Increments(kind, options) then a.number + 1 else a.number;
    if !Viable(c, s, a, x, kind, options) then
      (checked, Entry(kind, x.time, s.currentState, a.number, NotViable, false))
    else if x.broker != Proceed then
      (checked.(number := raised), Entry(kind, x.time, s.currentState, raised, Stopped, false))
    else
      (AfterContacts(s.currentState, checked, x, kind, options),
       Entry(kind, x.time, s.currentState, raised, Reached(if x.contacts then x.notified else 0), false))
  }

  /** service_notification and host_notification. */
  method SendNotification(o: Monitored, x: Circumstances, kind: Kind, options: Options) returns (entry: Entry)
    modifies o`number, o`notifiedOn, o`recoveryBeenSent, o`initialNotifTime, o`noMoreNotifications,
             o`lastNotification, o`nextNotification
    ensures (o.AlertView(), entry) == Notify(o.config, o.StatusView(), old(o.AlertView()), x, kind, options)
  {
    hide Viable, PassesFilters;
    var viable := CheckNotificationViability(o, x, kind, options);
    if !viable {
      return Entry(kind, x.time, o.currentState, o.number, NotViable, false);
    }
    var incremented := false;
    if kind == Normal || options.increment {
      o.number := o.number + 1;
      incremented := true;
    }
    var number := o.number;
    if x.broker == Cancel {
      return Entry(kind, x.time, o.currentState, number, Stopped, false);
    } else if x.broker == Override {
      return Entry(kind, x.time, o.currentState, number, Stopped, false);
    }
    var contactsNotified := NotifyContacts(o, x, kind, options, incremented);
    entry := Entry(kind, x.time, o.currentState, number, Reached(contactsNotified), false);
  }

  /** Number, times and flags once the contacts were gone through. */
  method CountContacts(o: Monitored, x: Circumstances, kind: Kind, options: Options, incremented: bool)
    returns (contactsNotified: nat)
    requires incremented == Increments(kind, options)
    modifies o`number, o`notifiedOn, o`noMoreNotifications, o`lastNotification, o`nextNotification
    ensures var before := old(o.AlertView()).(number := if incremented then old(o.number) - 1 else old(o.number));
      o.AlertView() == Counted(o.currentState, before, x, kind, options)
    ensures contactsNotified == if x.contacts then x.notified else 0
  {
    contactsNotified := 0;
    if x.contacts {
      contactsNotified := x.notified;
      if kind == Normal {
        if contactsNotified > 0 {
          o.nextNotification := x.nextTime;
          o.noMoreNotifications := x.noMore;
          o.lastNotification := x.time;
          if o.currentState != OK {
            o.notifiedOn := o.notifiedOn + {o.currentState};
          }
        } else if incremented {
          o.number := o.number - 1;
        }
      }
    } else {
      if incremented {
        o.number := o.number - 1;
      }
    }
  }

  /** The part of a notification after the broker has let it pass. */
  method NotifyContacts(o: Monitored, x: Circumstances, kind: Kind, options: Options, incremented: bool)
    returns (contactsNotified: nat)
    requires incremented == Increments(kind, options)
    modifies o`number, o`notifiedOn, o`recoveryBeenSent, o`noMoreNotifications, o`lastNotification, o`nextNotification
    ensures var before := old(o.AlertView()).(number := if incremented then old(o.number) - 1 else old(o.number));
      o.AlertView() == AfterContacts(o.currentState, before, x, kind, options)
    ensures contactsNotified == if x.contacts then x.notified else 0
  {
    hide Counted;
    contactsNotified := CountContacts(o, x, kind, options, incremented);
    if o.currentState == OK {
      o.recoveryBeenSent := true;
    }
  }

  // ----- notification numbers -----

  /** The number is never negative, and a set notified flag means that a notification was counted. */
  predicate NumbersHold(a: Alert) {
    a.number >= 0 && (a.notifiedOn != {} ==> a.number >= 1)
  }

  lemma NotifyKeepsNumbers(c: Config, s: Status, a: Alert, x: Circumstances, kind: Kind, options: Options)
    requires NumbersHold(a)
    ensures NumbersHold(Notify(c, s, a, x, kind, options).0)
  {
  }

  /** The attempt is viable and the broker lets it pass. */
  predicate Passes(c: Config, s: Status, a: Alert, x: Circumstances, kind: Kind, options: Options) {
    Viable(c, s, a, x, kind, options) && x.broker == Proceed
  }

  /** What a normal attempt does to the number and the flags. One that passes counts exactly when a contact was
      notified; a viable one the broker stops counts although nobody hears of it. Flags are set only by a problem
      notification that passed and reached a contact. */
  lemma WhatAnAttemptCounts(c: Config, s: Status, a: Alert, x: Circumstances, options: Options)
    ensures var after := Notify(c, s, a, x, Normal, options).0;
      && after.number == a.number +
           (if Viable(c, s, a, x, Normal, options) && (x.broker == Proceed ==> x.contacts && x.notified > 0)
            then 1 else 0)
      && after.notifiedOn == a.notifiedOn +
           (if Passes(c, s, a, x, Normal, options) && x.contacts && x.notified > 0 && s.currentState != OK
            then {s.currentState} else {})
  {
    hide Viable;
  }

  /** Other kinds of notifications never touch the flags, and the number only on request. */
  lemma OtherKindsFollow(c: Config, s: Status, a: Alert, x: Circumstances, kind: Kind, options: Options)
    requires kind != Normal
    ensures var (after, entry) := Notify(c, s, a, x, kind, options);
      && entry.kind == kind && after.notifiedOn == a.notifiedOn
      && a.number <= after.number && (!options.increment ==> after.number == a.number)
  {
  }

  // ----- notices of flapping -----

  /** What flap detection has to say: nothing, that flapping starts, or that it ends; in the last case a recovery may
      be owed since a problem had been notified when flapping started. */
  datatype FlapChange =
    | FlapSteady
    | FlapStarts(notice: Circumstances)
    | FlapEnds(notice: Circumstances, owed: bool, recovery: Circumstances)

  /** The attempts set_*_flap and clear_*_flap make. */
  function FlapNotices(c: Config, s: Status, a: Alert, flap: FlapChange): (Alert, seq<Entry>) {
    match flap
    case FlapSteady => (a, [])
    case FlapStarts(notice) =>
      var (after, entry) := Notify(c, s, a, notice, Flapping, NONE);
      (after, [entry])
    case FlapEnds(notice, owed, recovery) =>
      var (noticed, entry) := Notify(c, s, a, notice, Flapping, NONE);
      if owed && s.currentState == OK then
        var (after, second) := Notify(c, s, noticed, recovery, Normal, NONE);
        (after, [entry, second.(atFlapEnd := true)])
      else (noticed, [entry])
  }

  method SendFlapNotices(o: Monitored, flap: FlapChange) returns (log: seq<Entry>)
    modifies o`number, o`notifiedOn, o`recoveryBeenSent, o`initialNotifTime, o`noMoreNotifications,
             o`lastNotification, o`nextNotification
    ensures (o.AlertView(), log) == FlapNotices(o.config, o.StatusView(), old(o.AlertView()), flap)
  {
    hide Notify;
    match flap {
      case FlapSteady =>
        log := [];
      case FlapStarts(notice) =>
        var entry := SendNotification(o, notice, Flapping, NONE);
        log := [entry];
      case FlapEnds(notice, owed, recovery) =>
        var entry := SendNotification(o, notice, Flapping, NONE);
        log := [entry];
        if owed && o.currentState == OK {
          var second := SendNotification(o, recovery, Normal, NONE);
          log := [entry, second.(atFlapEnd := true)];
        }
    }
  }
}
