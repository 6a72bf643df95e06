/** Hosts and services as far as checks and notifications change them. */
module MonitoredObjects {

  // Service states; of the host states, UP equals OK.
  const OK := 0
  const WARNING := 1
  const CRITICAL := 2
  const UNKNOWN := 3
  const UP := 0
  const DOWN := 1
  const UNREACHABLE := 2

  datatype AcknowledgementType = NoAcknowledgement | NormalAcknowledgement | StickyAcknowledgement

  /** notifyOn holds the states notified about, OK standing for recoveries; delays are in seconds. */
  datatype Config = Config(
    isService: bool, maxAttempts: nat, isVolatile: bool,
    notifyOn: set<int>, notifyOnFlapping: bool, notifyOnDowntime: bool,
    firstNotificationDelay: int, recoveryNotificationDelay: int)

  /** The fields notifications work on. */
  datatype Alert = Alert(
    number: int, notifiedOn: set<int>, recoveryBeenSent: bool, initialNotifTime: int,
    noMoreNotifications: bool, lastNotification: int, nextNotification: int)

  /** What a notification needs to know about the state of its object. */
  datatype Status = Status(currentState: int, hard: bool, acknowledged: bool)

  class Monitored {
    const config: Config
    var currentState: int
    var lastState: int
    var hard: bool
    var lastHardState: int
    var currentAttempt: int
    var hostProblemAtLastCheck: bool
    var acknowledged: bool
    var acknowledgement: AcknowledgementType
    var number: int
    var notifiedOn: set<int>
    var recoveryBeenSent: bool
    var initialNotifTime: int
    var noMoreNotifications: bool
    var lastNotification: int
    var nextNotification: int
    var currentEventId: nat
    var lastEventId: nat
    var currentProblemId: nat
    var lastProblemId: nat

    constructor (config: Config)
      ensures this.config == config && AlertView() == InitialAlert() && StatusView() == Status(OK, true, false)
      ensures lastState == lastHardState == OK && currentAttempt == 1 && !hostProblemAtLastCheck
      ensures acknowledgement == NoAcknowledgement
      ensures currentEventId == lastEventId == currentProblemId == lastProblemId == 0
    {
      this.config := config;
      currentState, lastState, hard, lastHardState, currentAttempt := OK, OK, true, OK, 1;
      hostProblemAtLastCheck, acknowledged, acknowledgement := false, false, NoAcknowledgement;
      number, notifiedOn, recoveryBeenSent, initialNotifTime := 0, {}, true, 0;
      noMoreNotifications, lastNotification, nextNotification := false, 0, 0;
      currentEventId, lastEventId, currentProblemId, lastProblemId := 0, 0, 0, 0;
    }

    function AlertView(): Alert
      reads this
    {
      Alert(number, notifiedOn, recoveryBeenSent, initialNotifTime,
            noMoreNotifications, lastNotification, nextNotification)
    }

    function StatusView(): Status
      reads this
    {
      Status(currentState, hard, acknowledged)
    }
  }

  /** A newly configured object. */
  function InitialAlert(): Alert {
    Alert(0, {}, true, 0, false, 0, 0)
  }

  datatype Acknowledged = Acknowledged(flag: bool, kind: AcknowledgementType)

  datatype Ids = Ids(currentEvent: nat, lastEvent: nat, currentProblem: nat, lastProblem: nat)

  function AckOf(o: Monitored): Acknowledged
    reads o
  {
    Acknowledged(o.acknowledged, o.acknowledgement)
  }

  function IdsOf(o: Monitored): Ids
    reads o
  {
    Ids(o.currentEventId, o.lastEventId, o.currentProblemId, o.lastProblemId)
  }

  /** The program-wide counters new event and problem ids are drawn from. */
  class Counters {
    var nextEventId: nat
    var nextProblemId: nat

    constructor ()
      ensures nextEventId == 1 && nextProblemId == 1
    {
      nextEventId, nextProblemId := 1, 1;
    }
  }

  /** The ids one object was given over a run, and where the program-wide counters stand. */
  datatype Ledger = Ledger(nextEvent: nat, nextProblem: nat, events: seq<nat>, problems: seq<nat>)

  /** Each id is larger than all before it, and below the counter. */
  predicate Fresh(ids: seq<nat>, next: nat) {
    && (forall i, j :: 0 <= i < j < |ids| ==> ids[i] < ids[j])
    && (forall i :: 0 <= i < |ids| ==> ids[i] < next)
  }
}
