/** Who is notified, and when again: escalations, the list of contacts and the next notification time
    (src/notifications.cc). Hosts and services run the same code on different state names. */
module Escalations {

  /** Also the state called UP for hosts. */
  const OK := 0

  class Contact {
    const name: string

    constructor (name: string)
      ensures this.name == name
    {
      this.name := name;
    }
  }

  /** Members and groups that were never resolved are null. */
  class ContactGroup {
    const members: seq<Contact?>

    constructor (members: seq<Contact?>)
      ensures this.members == members
    {
      this.members := members;
    }
  }

  /** target is the identity of the object the escalation belongs to; inPeriod tells whether it has no period or
      the current time lies in it; escalateOn holds the states it is enabled for, OK standing for recoveries. */
  datatype Escalation = Escalation(
    target: nat, firstNotification: int, lastNotification: int, inPeriod: bool, escalateOn: set<int>,
    notificationInterval: real, contacts: seq<Contact?>, groups: seq<ContactGroup?>)

  class Notified {
    const id: nat
    const isVolatile: bool
    const contacts: seq<Contact?>
    const groups: seq<ContactGroup?>
    const notificationInterval: real
    var currentState: int
    var currentNotificationNumber: int
    var noMoreNotifications: bool

    constructor (id: nat, isVolatile: bool, contacts: seq<Contact?>, groups: seq<ContactGroup?>, interval: real)
      ensures this.id == id && this.isVolatile == isVolatile && this.contacts == contacts && this.groups == groups
      ensures notificationInterval == interval && currentState == OK && currentNotificationNumber == 0
    {
      this.id, this.isVolatile, this.contacts, this.groups := id, isVolatile, contacts, groups;
      notificationInterval, currentState, currentNotificationNumber, noMoreNotifications := interval, OK, 0, false;
    }
  }

  // ----- valid escalations -----

  /** The escalation applies to the object in the given state, at the given notification number. For a recovery
      the number is reduced by one: it asks who was told about the problem. */
  predicate ValidFor(e: Escalation, id: nat, state: int, number: int, broadcast: bool) {
    var n := if state == OK then number - 1 else number;
    e.target == id &&
    (broadcast ||
     (e.firstNotification <= n && (e.lastNotification == 0 || n <= e.lastNotification)
      && e.inPeriod && state in e.escalateOn))
  }

  /** is_valid_escalation_for_*_notification, test by test. */
  method IsValidEscalation(o: Notified, e: Escalation, broadcast: bool) returns (valid: bool)
    ensures valid == ValidFor(e, o.id, o.currentState, o.currentNotificationNumber, broadcast)
  {
    var notificationNumber := o.currentNotificationNumber;
    if o.currentState == OK {
      notificationNumber := o.currentNotificationNumber - 1;
    }
    if e.target != o.id {
      return false;
    }
    if broadcast {
      return true;
    }
    if e.firstNotification > notificationNumber {
      return false;
    }
    if e.lastNotification != 0 && e.lastNotification < notificationNumber {
      return false;
    }
    if !e.inPeriod {
      return false;
    }
    if o.currentState !in e.escalateOn {
      return false;
    }
    return true;
  }

  /** When an escalation applies: to a problem in the states it is enabled for, from its first to its last notification,
      if it has a last one, and to a recovery one notification later; the period must be open for both. A broadcast goes
      through every escalation of the object. */
  lemma EscalationApplies(e: Escalation, id: nat, state: int, number: int)
    ensures state != 0 ==>
      (ValidFor(e, id, state, number, false) <==>
         && e.target == id && e.inPeriod && state in e.escalateOn && number >= e.firstNotification
         && (number > e.lastNotification ==> e.lastNotification == 0))
    ensures ValidFor(e, id, 0, number, false) <==>
         && e.target == id && e.inPeriod && 0 in e.escalateOn && number > e.firstNotification
         && (number > e.lastNotification + 1 ==> e.lastNotification == 0)
    ensures ValidFor(e, id, state, number, true) <==> e.target == id
  {
  }

  /** A recovery, whose number has already been raised by one, selects exactly the escalations that the last
      problem notification selected, provided they have no period and are enabled for both states. */
  lemma RecoverySelectsSameEscalations(e: Escalation, id: nat, problem: int, number: int)
    requires problem != OK && e.inPeriod && problem in e.escalateOn && OK in e.escalateOn
    ensures ValidFor(e, id, OK, number + 1, false) == ValidFor(e, id, problem, number, false)
  {
  }

  // ----- the audience -----

  predicate MemberOf(c: Contact, contacts: seq<Contact?>, groups: seq<ContactGroup?>) {
    c in contacts || exists g: ContactGroup :: g in groups && c in g.members
  }

  predicate Escalated(escalations: seq<Escalation>, id: nat, state: int, number: int) {
    exists e :: e in escalations && ValidFor(e, id, state, number, false)
  }

  /** The contact is to be notified: through a valid escalation, or as a normal contact when the notification is
      not escalated; a broadcast goes to both. */
  predicate InAudience(c: Contact, o: Notified, escalations: seq<Escalation>, state: int, number: int,
                       broadcast: bool)
  {
    var escalated := Escalated(escalations, o.id, state, number);
    || ((escalated || broadcast) &&
        exists e :: e in escalations && ValidFor(e, o.id, state, number, broadcast)
          && MemberOf(c, e.contacts, e.groups))
    || ((!escalated || broadcast) && MemberOf(c, o.contacts, o.groups))
  }

  /** A contact hears through an escalation: it is listed there, or in a group that is. */
  ghost predicate HearsThrough(c: Contact, contacts: seq<Contact?>, groups: seq<ContactGroup?>) {
    (exists i :: 0 <= i < |contacts| && contacts[i] == c)
    || exists g: ContactGroup :: g in groups && exists i :: 0 <= i < |g.members| && g.members[i] == c
  }

  /** An escalation of the object covers the problem notification. */
  predicate CoversProblem(e: Escalation, id: nat, state: int, number: int) {
    && e.target == id && e.inPeriod && state in e.escalateOn
    && number >= e.firstNotification && (number > e.lastNotification ==> e.lastNotification == 0)
  }

  /** Who hears of a problem: the contacts of all escalations that cover the notification or, if none does, those of the
      object itself. */
  lemma ProblemAudience(c: Contact, o: Notified, escalations: seq<Escalation>, state: int, number: int)
    requires state != OK
    ensures InAudience(c, o, escalations, state, number, false) <==>
      if exists e :: e in escalations && CoversProblem(e, o.id, state, number)
      then exists e :: e in escalations && CoversProblem(e, o.id, state, number)
                       && HearsThrough(c, e.contacts, e.groups)
      else HearsThrough(c, o.contacts, o.groups)
  {
    forall e | e in escalations
      ensures ValidFor(e, o.id, state, number, false) <==> CoversProblem(e, o.id, state, number)
      ensures MemberOf(c, e.contacts, e.groups) <==> HearsThrough(c, e.contacts, e.groups)
    {
      EscalationApplies(e, o.id, state, number);
    }
    assert MemberOf(c, o.contacts, o.groups) <==> HearsThrough(c, o.contacts, o.groups);
  }

  /** A broadcast goes to the contacts of every escalation of the object and to its own, whatever state and number
      are. */
  lemma BroadcastAudience(c: Contact, o: Notified, escalations: seq<Escalation>, state: int, number: int)
    ensures InAudience(c, o, escalations, state, number, true) <==>
      HearsThrough(c, o.contacts, o.groups)
      || exists e :: e in escalations && e.target == o.id && HearsThrough(c, e.contacts, e.groups)
  {
    forall e | e in escalations ensures ValidFor(e, o.id, state, number, true) <==> e.target == o.id
      ensures MemberOf(c, e.contacts, e.groups) <==> HearsThrough(c, e.contacts, e.groups)
    {
    }
    assert MemberOf(c, o.contacts, o.groups) <==> HearsThrough(c, o.contacts, o.groups);
  }

  /** The audience of a recovery is that of the problem notification before it. */
  lemma RecoveryAudience(c: Contact, o: Notified, escalations: seq<Escalation>, problem: int, number: int)
    requires problem != OK
    requires forall e :: e in escalations ==> e.inPeriod && problem in e.escalateOn && OK in e.escalateOn
    ensures InAudience(c, o, escalations, OK, number + 1, false) ==
      InAudience(c, o, escalations, problem, number, false)
  {
    forall e | e in escalations
      ensures ValidFor(e, o.id, OK, number + 1, false) == ValidFor(e, o.id, problem, number, false)
    {
      RecoverySelectsSameEscalations(e, o.id, problem, number);
    }
  }

  // ----- the notification list -----

  function Reversed<T>(list: seq<T>): seq<T> {
    if list == [] then [] else Reversed(list[1..]) + [list[0]]
  }

  ghost predicate NoDuplicates<T>(list: seq<T>) {
    forall i, j :: 0 <= i < j < |list| ==> list[i] != list[j]
  }

  class NotificationList {
    /** The entries, the latest first. */
    var list: seq<Contact>
    /** The recipients macro, in the order of insertion. */
    var recipients: seq<Contact>

    ghost predicate Valid()
      reads this
    {
      NoDuplicates(list) && recipients == Reversed(list)
    }

    constructor ()
      ensures Valid() && list == []
    {
      list, recipients := [], [];
    }

    method FindNotification(contact: Contact?) returns (found: bool)
      ensures found <==> contact != null && contact in list
    {
      if contact == null {
        return false;
      }
      var i := 0;
      while i < |list|
        invariant 0 <= i <= |list| && contact !in list[..i]
      {
        if list[i] == contact {
          return true;
        }
        i := i + 1;
      }
      return false;
    }

    method AddNotification(contact: Contact?)
      requires Valid()
      modifies this
      ensures Valid()
      ensures list == if contact == null || contact in old(list) then old(list) else [contact] + old(list)
    {
      if contact == null {
        return;
      }
      var found := FindNotification(contact);
      if found {
        return;
      }
      list := [contact] + list;
      recipients := recipients + [contact];
      assert list[1..] == old(list);
    }

    method AddContacts(contacts: seq<Contact?>)
      requires Valid()
      modifies this
      ensures Valid()
      ensures forall c :: c in list <==> c in old(list) || c in contacts
    {
      var i := 0;
      while i < |contacts|
        invariant 0 <= i <= |contacts| && Valid()
        invariant forall c :: c in list <==> c in old(list) || c in contacts[..i]
      {
        AddNotification(contacts[i]);
        i := i + 1;
      }
    }

    method AddGroups(groups: seq<ContactGroup?>)
      requires Valid()
      modifies this
      ensures Valid()
      ensures forall c :: c in list <==> c in old(list) || MemberOf(c, [], groups)
    {
      var i := 0;
      while i < |groups|
        invariant 0 <= i <= |groups| && Valid()
        invariant forall c :: c in list <==> c in old(list) || MemberOf(c, [], groups[..i])
      {
        if groups[i] != null {
          AddContacts(groups[i].members);
        }
        forall c ensures MemberOf(c, [], groups[..i + 1]) <==>
          MemberOf(c, [], groups[..i]) || (groups[i] != null && c in groups[i].members)
        {
          OneMoreGroup(c, groups, i);
        }
        i := i + 1;
      }
      assert groups[..i] == groups;
    }

    /** create_notification_list_from_*: the list holds exactly the audience, every contact once. */
    method CreateNotificationList(o: Notified, escalations: seq<Escalation>, broadcast: bool) returns (escalated: bool)
      modifies this
      ensures Valid()
      ensures escalated == Escalated(escalations, o.id, o.currentState, o.currentNotificationNumber)
      ensures forall c :: c in list <==>
        InAudience(c, o, escalations, o.currentState, o.currentNotificationNumber, broadcast)
    {
      escalated := ShouldBeEscalated(o, escalations);
      list, recipients := [], [];
      ghost var state, number := o.currentState, o.currentNotificationNumber;
      if escalated || broadcast {
        var i := 0;
        while i < |escalations|
          invariant 0 <= i <= |escalations| && Valid()
          invariant forall c :: c in list <==> ReachedBy(c, escalations[..i], o.id, state, number, broadcast)
        {
          var valid := IsValidEscalation(o, escalations[i], broadcast);
          if valid {
            AddContacts(escalations[i].contacts);
            AddGroups(escalations[i].groups);
          }
          assert escalations[..i + 1] == escalations[..i] + [escalations[i]];
          i := i + 1;
        }
        assert escalations[..i] == escalations;
      }
      if !escalated || broadcast {
        AddContacts(o.contacts);
        AddGroups(o.groups);
      }
    }
  }

  ghost predicate ReachedBy(c: Contact, escalations: seq<Escalation>, id: nat, state: int, number: int,
                            broadcast: bool)
  {
    exists e :: e in escalations && ValidFor(e, id, state, number, broadcast) && MemberOf(c, e.contacts, e.groups)
  }

  lemma OneMoreGroup(c: Contact, groups: seq<ContactGroup?>, i: nat)
    requires i < |groups|
    ensures MemberOf(c, [], groups[..i + 1]) <==>
      MemberOf(c, [], groups[..i]) || (groups[i] != null && c in groups[i].members)
  {
    assert groups[..i + 1] == groups[..i] + [groups[i]];
    if groups[i] != null && c in groups[i].members {
      var g: ContactGroup := groups[i];
      assert g in groups[..i + 1];
    }
  }

  /** should_*_notification_be_escalated. */
  method ShouldBeEscalated(o: Notified, escalations: seq<Escalation>) returns (escalated: bool)
    ensures escalated == Escalated(escalations, o.id, o.currentState, o.currentNotificationNumber)
  {
    var i := 0;
    while i < |escalations|
      invariant 0 <= i <= |escalations|
      invariant !Escalated(escalations[..i], o.id, o.currentState, o.currentNotificationNumber)
    {
      var valid := IsValidEscalation(o, escalations[i], false);
      if valid {
        return true;
      }
      assert escalations[..i + 1] == escalations[..i] + [escalations[i]];
      i := i + 1;
    }
    assert escalations[..i] == escalations;
    return false;
  }

  // ----- the next notification time -----

  /** A valid escalation that sets an interval of its own. */
  predicate SetsInterval(e: Escalation, id: nat, state: int, number: int) {
    e.notificationInterval >= 0.0 && ValidFor(e, id, state, number, false)
  }

  ghost predicate AnySetsInterval(escalations: seq<Escalation>, id: nat, state: int, number: int) {
    exists e :: e in escalations && SetsInterval(e, id, state, number)
  }

  lemma OneMoreInterval(escalations: seq<Escalation>, i: nat, id: nat, state: int, number: int)
    requires i < |escalations|
    ensures AnySetsInterval(escalations[..i + 1], id, state, number) <==>
      AnySetsInterval(escalations[..i], id, state, number) || SetsInterval(escalations[i], id, state, number)
  {
    assert escalations[..i + 1] == escalations[..i] + [escalations[i]];
  }

  /** The interval in use: the shortest one set by a valid escalation, or the object's own. */
  ghost predicate IntervalToUse(o: Notified, escalations: seq<Escalation>, state: int, number: int, interval: real) {
    if AnySetsInterval(escalations, o.id, state, number) then
      && (exists e :: e in escalations && SetsInterval(e, o.id, state, number) && e.notificationInterval == interval)
      && (forall e :: e in escalations && SetsInterval(e, o.id, state, number) ==> interval <= e.notificationInterval)
    else interval == o.notificationInterval
  }

  /** While there is a problem, the interval is the shortest one, not negative, of the escalations that cover the
      notification, and the one of the object if there is none. */
  lemma IntervalOfProblem(o: Notified, escalations: seq<Escalation>, state: int, number: int, interval: real)
    requires state != OK && IntervalToUse(o, escalations, state, number, interval)
    ensures var covering := set e | e in escalations && CoversProblem(e, o.id, state, number)
                                    && e.notificationInterval >= 0.0 :: e.notificationInterval;
      if covering == {} then interval == o.notificationInterval
      else interval in covering && forall i :: i in covering ==> interval <= i
  {
    forall e | e in escalations
      ensures SetsInterval(e, o.id, state, number) <==>
        CoversProblem(e, o.id, state, number) && e.notificationInterval >= 0.0
    {
      EscalationApplies(e, o.id, state, number);
    }
    var covering := set e | e in escalations && CoversProblem(e, o.id, state, number)
                            && e.notificationInterval >= 0.0 :: e.notificationInterval;
    if covering == {} {
      forall e | e in escalations ensures !SetsInterval(e, o.id, state, number) {
        assert SetsInterval(e, o.id, state, number) ==> e.notificationInterval in covering;
      }
    } else {
      var i :| i in covering;
      var e :| e in escalations && CoversProblem(e, o.id, state, number) && e.notificationInterval >= 0.0
               && e.notificationInterval == i;
      assert AnySetsInterval(escalations, o.id, state, number);
    }
  }

  /** get_next_*_notification_time. */
  method GetNextNotificationTime(o: Notified, escalations: seq<Escalation>, offset: int, intervalLength: nat)
    returns (next: int, ghost interval: real)
    requires o.notificationInterval >= 0.0
    modifies o`noMoreNotifications
    ensures IntervalToUse(o, escalations, o.currentState, o.currentNotificationNumber, interval)
    ensures next == offset + (interval * intervalLength as real).Floor
    ensures o.noMoreNotifications == (interval == 0.0 && !o.isVolatile)
  {
    var intervalToUse := o.notificationInterval;
    var haveEscalatedInterval := false;
    var i := 0;
    while i < |escalations|
      invariant 0 <= i <= |escalations|
      invariant haveEscalatedInterval <==>
        AnySetsInterval(escalations[..i], o.id, o.currentState, o.currentNotificationNumber)
      invariant IntervalToUse(o, escalations[..i], o.currentState, o.currentNotificationNumber, intervalToUse)
    {
      var e := escalations[i];
      var valid := IsValidEscalation(o, e, false);
      OneMoreInterval(escalations, i, o.id, o.currentState, o.currentNotificationNumber);
      assert escalations[..i + 1] == escalations[..i] + [e];
      i := i + 1;
      if e.notificationInterval < 0.0 {
        continue;
      }
      if !valid {
        continue;
      }
      if !haveEscalatedInterval {
        haveEscalatedInterval := true;
        intervalToUse := e.notificationInterval;
      } else if e.notificationInterval < intervalToUse {
        intervalToUse := e.notificationInterval;
      }
    }
    assert escalations[..i] == escalations;
    o.noMoreNotifications := intervalToUse == 0.0 && !o.isVolatile;
    interval := intervalToUse;
    next := offset + (intervalToUse * intervalLength as real).Floor;
  }
}
