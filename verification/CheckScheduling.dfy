/** The queue of scheduled checks: schedule_service_check and schedule_host_check (src/checks.cc), which decide
    alike, on the event list and its per-object index (src/events/timed_event.cc). */
module CheckScheduling {
  import opened Options

  /** A host or a service, as far as the scheduling of its checks goes. */
  class Checked {
    var checksEnabled: bool
    var nextCheck: int
    var forcedOption: bool

    constructor (checksEnabled: bool)
      ensures this.checksEnabled == checksEnabled && nextCheck == 0 && !forcedOption
    {
      this.checksEnabled, nextCheck, forcedOption := checksEnabled, 0, false;
    }
  }

  class TimedEvent {
    const target: Checked
    const runTime: int
    const forced: bool

    constructor (target: Checked, runTime: int, forced: bool)
      ensures this.target == target && this.runTime == runTime && this.forced == forced
    {
      this.target, this.runTime, this.forced := target, runTime, forced;
    }
  }

  /** What is known of a queued check. */
  datatype Plan = Plan(runTime: int, forced: bool)

  datatype Request = Request(checkTime: int, forced: bool, enabled: bool)

  /** Requests are turned down only while active checks are disabled. */
  predicate Accepted(r: Request) { r.enabled || r.forced }

  /** How a request changes the queued check of its object. */
  function AfterRequest(queued: Option<Plan>, r: Request): Option<Plan> {
    if !Accepted(r) then queued
    else if queued.None? || (if queued.value.forced then r.forced && r.checkTime < queued.value.runTime
                             else r.forced || r.checkTime < queued.value.runTime)
    then Some(Plan(r.checkTime, r.forced))
    else queued
  }

  predicate Sorted(list: seq<TimedEvent>) {
    forall i, j :: 0 <= i < j < |list| ==> list[i].runTime <= list[j].runTime
  }

  predicate Distinct(list: seq<TimedEvent>) {
    forall i, j :: 0 <= i < j < |list| ==> list[i] != list[j]
  }

  /** The place of a new event: behind every event that runs no later, and before all the others. */
  predicate GoesAt(list: seq<TimedEvent>, k: nat, event: TimedEvent)
    requires k <= |list|
  {
    && (forall j :: 0 <= j < k ==> list[j].runTime <= event.runTime)
    && (forall j :: k <= j < |list| ==> event.runTime < list[j].runTime)
  }

  predicate InsertedAt(list: seq<TimedEvent>, k: nat, event: TimedEvent, after: seq<TimedEvent>)
    requires k <= |list|
  {
    GoesAt(list, k, event) && after == list[..k] + [event] + list[k..]
  }

  lemma InsertKeepsOrder(list: seq<TimedEvent>, k: nat, event: TimedEvent)
    requires Sorted(list) && Distinct(list) && event !in list && k <= |list|
    requires k > 0 ==> list[k - 1].runTime <= event.runTime
    requires k < |list| ==> event.runTime <= list[k].runTime
    ensures var after := list[..k] + [event] + list[k..];
      Sorted(after) && Distinct(after) && forall e :: e in after <==> e in list || e == event
  {
    hide Sorted, Distinct;
    InsertKeepsSorted(list, k, event);
    InsertKeepsDistinct(list, k, event);
    InsertKeepsElements(list, k, event);
  }

  lemma InsertKeepsSorted(list: seq<TimedEvent>, k: nat, event: TimedEvent)
    requires Sorted(list) && k <= |list|
    requires k > 0 ==> list[k - 1].runTime <= event.runTime
    requires k < |list| ==> event.runTime <= list[k].runTime
    ensures Sorted(list[..k] + [event] + list[k..])
  {
    forall i | 0 <= i < |list|
      ensures if i < k then list[i].runTime <= event.runTime else event.runTime <= list[i].runTime
    {
    }
  }

  lemma InsertKeepsDistinct(list: seq<TimedEvent>, k: nat, event: TimedEvent)
    requires Distinct(list) && event !in list && k <= |list|
    ensures Distinct(list[..k] + [event] + list[k..])
  {
    assert forall i :: 0 <= i < |list| ==> list[i] != event;
  }

  lemma InsertKeepsElements(list: seq<TimedEvent>, k: nat, event: TimedEvent)
    requires k <= |list|
    ensures forall e :: e in list[..k] + [event] + list[k..] <==> e in list || e == event
  {
    assert list == list[..k] + list[k..];
  }

  lemma RemoveKeepsOrder(list: seq<TimedEvent>, k: nat)
    requires Sorted(list) && Distinct(list) && k < |list|
    ensures var after := list[..k] + list[k + 1..];
      Sorted(after) && Distinct(after) && forall e :: e in after <==> e in list && e != list[k]
  {
    var after := list[..k] + list[k + 1..];
    forall i | 0 <= i < |after| ensures after[i] == list[if i < k then i else i + 1] {
    }
    forall e | e in list && e != list[k] ensures e in after {
      var i :| 0 <= i < |list| && list[i] == e;
      assert after[if i < k then i else i - 1] == e;
    }
  }

  class EventQueue {
    /** The events in execution order. */
    var list: seq<TimedEvent>
    /** The index by target. */
    var quick: map<Checked, TimedEvent>

    constructor ()
      ensures Valid() && list == [] && quick == map[]
    {
      list, quick := [], map[];
    }

    /** The list is in execution order, and the index holds exactly its events: so no object has two. */
    ghost predicate Valid()
      reads this
    {
      && Sorted(list) && Distinct(list)
      && (forall e :: e in list ==> e.target in quick && quick[e.target] == e)
      && (forall o :: o in quick ==> quick[o] in list && quick[o].target == o)
    }

    function Queued(o: Checked): Option<Plan>
      reads this
    {
      if o in quick then Some(Plan(quick[o].runTime, quick[o].forced)) else None
    }

    lemma OneEventPerObject(i: nat, j: nat)
      requires Valid() && i < |list| && j < |list| && list[i].target == list[j].target
      ensures i == j
    {
      assert list[i] in list && list[j] in list;
    }

    /** The search for the place of an event, from the tail. */
    method FindPlace(event: TimedEvent) returns (k: nat)
      requires Sorted(list)
      ensures k <= |list| && GoesAt(list, k, event)
    {
      if list == [] {
        k := 0;
      } else if event.runTime < list[0].runTime {
        k := 0;
      } else {
        k := |list|;
        while k > 0 && event.runTime < list[k - 1].runTime
          invariant 0 <= k <= |list|
          invariant forall j :: k <= j < |list| ==> event.runTime < list[j].runTime
        {
          k := k - 1;
        }
      }
    }

    /** Inserts an event behind every event that runs no later. */
    method AddEvent(event: TimedEvent)
      requires Valid() && event.target !in quick
      modifies this
      ensures Valid() && quick == old(quick)[event.target := event]
      ensures exists k :: 0 <= k <= |old(list)| && InsertedAt(old(list), k, event, list)
    {
      hide Sorted, Distinct;
      ghost var before := list;
      quick := quick[event.target := event];
      var k := FindPlace(event);
      InsertKeepsOrder(list, k, event);
      list := list[..k] + [event] + list[k..];
      assert InsertedAt(before, k, event, list);
    }

    method RemoveEvent(event: TimedEvent)
      requires Valid() && event in list
      modifies this
      ensures Valid() && quick == old(quick) - {event.target}
      ensures exists k :: 0 <= k < |old(list)| && old(list)[k] == event && list == old(list)[..k] + old(list)[k + 1..]
    {
      quick := quick - {event.target};
      var k := 0;
      while list[k] != event
        invariant 0 <= k < |list| && event in list[k..]
        decreases |list| - k
      {
        k := k + 1;
      }
      RemoveKeepsOrder(list, k);
      list := list[..k] + list[k + 1..];
    }

    /** A queued event is kept unless the request is forced and it is not, or comes earlier without being weaker. */
    method UseOriginalEvent(o: Checked, checkTime: int, forced: bool) returns (useOriginalEvent: bool)
      requires Valid()
      ensures useOriginalEvent == (AfterRequest(Queued(o), Request(checkTime, forced, true)) == Queued(o))
      ensures if useOriginalEvent then o in quick
        else AfterRequest(Queued(o), Request(checkTime, forced, true)) == Some(Plan(checkTime, forced))
    {
      useOriginalEvent := false;
      if o in quick {
        var original := quick[o];
        useOriginalEvent := true;
        if original.forced {
          if forced && checkTime < original.runTime {
            useOriginalEvent := false;
          }
        } else {
          if forced {
            useOriginalEvent := false;
          } else if checkTime < original.runTime {
            useOriginalEvent := false;
          }
        }
      }
    }

    /** A new event takes the place of the queued one, if there is one. */
    method PlaceEvent(o: Checked, runTime: int, forced: bool)
      requires Valid()
      modifies this
      ensures Valid() && Queued(o) == Some(Plan(runTime, forced)) && quick - {o} == old(quick) - {o}
    {
      hide Sorted, Distinct, InsertedAt;
      if o in quick {
        RemoveEvent(quick[o]);
      }
      var event := new TimedEvent(o, runTime, forced);
      AddEvent(event);
    }

    /** Schedules a check, or keeps the one that is queued. */
    method ScheduleCheck(o: Checked, checkTime: int, forced: bool)
      requires Valid()
      modifies this, o
      ensures Valid() && o.checksEnabled == old(o.checksEnabled)
      ensures Queued(o) == AfterRequest(old(Queued(o)), Request(checkTime, forced, old(o.checksEnabled)))
      ensures quick - {o} == old(quick) - {o}
      ensures Queued(o) == old(Queued(o)) ==> list == old(list) && quick == old(quick)
      ensures if old(o.checksEnabled) || forced
        then Queued(o).Some? && o.nextCheck == Queued(o).value.runTime && o.forcedOption == forced
        else o.nextCheck == old(o.nextCheck) && o.forcedOption == old(o.forcedOption)
    {
      if !o.checksEnabled && !forced {
        return;
      }
      hide EventQueue.Valid, AfterRequest;
      var useOriginalEvent := UseOriginalEvent(o, checkTime, forced);
      o.forcedOption := forced;
      if !useOriginalEvent {
        o.nextCheck := checkTime;
        PlaceEvent(o, checkTime, forced);
      } else {
        o.nextCheck := quick[o].runTime;
      }
    }

    /** The event loop takes the head of the list. */
    method Dequeue() returns (event: TimedEvent)
      requires Valid() && list != []
      modifies this
      ensures Valid() && event == old(list)[0] && list == old(list)[1..]
      ensures quick == old(quick) - {event.target}
      ensures forall e :: e in list ==> event.runTime <= e.runTime
    {
      event := list[0];
      RemoveEvent(event);
    }
  }

  /** The queued check of an object after a sequence of requests for it, starting without any. */
  function AfterRequests(requests: seq<Request>): Option<Plan> {
    if requests == [] then None
    else AfterRequest(AfterRequests(requests[..|requests| - 1]), requests[|requests| - 1])
  }

  /** The k-th request wins: among the forced requests if there are any, else among the accepted ones, it is the
      earliest, and the first made of those. */
  ghost predicate Wins(requests: seq<Request>, k: nat) {
    k < |requests| && Accepted(requests[k]) && forall j :: 0 <= j < |requests| ==> Beats(requests, k, j)
  }

  ghost predicate Beats(requests: seq<Request>, k: nat, j: nat)
    requires k < |requests| && j < |requests|
  {
    var winner, other := requests[k], requests[j];
    Accepted(other) && (winner.forced ==> other.forced) ==>
      && winner.forced == other.forced
      && winner.checkTime <= other.checkTime
      && (winner.checkTime == other.checkTime ==> k <= j)
  }

  /** The k-th request wins and asked for just this check. */
  ghost predicate WinsWith(requests: seq<Request>, k: nat, plan: Plan) {
    Wins(requests, k) && plan == Plan(requests[k].checkTime, requests[k].forced)
  }

  lemma WinnerIsUnique(requests: seq<Request>, k: nat, l: nat)
    requires Wins(requests, k) && Wins(requests, l)
    ensures k == l
  {
    assert Beats(requests, k, l) && Beats(requests, l, k);
  }

  /** Between two executions the queued check is the one of the winning request; there is none exactly when no
      request was accepted. */
  lemma {:induction false} QueuedCheckIsTheWinner(requests: seq<Request>)
    ensures AfterRequests(requests) == None <==> forall j :: 0 <= j < |requests| ==> !Accepted(requests[j])
    ensures AfterRequests(requests).Some? ==> exists k: nat :: WinsWith(requests, k, AfterRequests(requests).value)
  {
    if requests != [] {
      var n := |requests| - 1;
      var earlier := requests[..n];
      QueuedCheckIsTheWinner(earlier);
      if AfterRequests(earlier).None? {
        forall j | 0 <= j < n ensures !Accepted(requests[j]) {
          assert !Accepted(earlier[j]);
        }
        if Accepted(requests[n]) {
          assert forall j :: 0 <= j < |requests| ==> Beats(requests, n, j);
          assert WinsWith(requests, n, AfterRequests(requests).value);
        }
      } else {
        var k: nat :| WinsWith(earlier, k, AfterRequests(earlier).value);
        LaterRequest(requests, k);
        var queued := AfterRequests(earlier);
        var winner := if AfterRequest(queued, requests[n]) == queued then k else n;
        assert WinsWith(requests, winner, AfterRequests(requests).value);
      }
    }
  }

  /** One more request either leaves the winner or wins itself. */
  lemma LaterRequest(requests: seq<Request>, k: nat)
    requires requests != [] && Wins(requests[..|requests| - 1], k)
    ensures var n := |requests| - 1;
      var queued := Some(Plan(requests[k].checkTime, requests[k].forced));
      if AfterRequest(queued, requests[n]) == queued then Wins(requests, k)
      else
        var request := requests[n];
        Wins(requests, n) && AfterRequest(queued, request) == Some(Plan(request.checkTime, request.forced))
  {
    var n := |requests| - 1;
    var queued := Some(Plan(requests[k].checkTime, requests[k].forced));
    var winner := if AfterRequest(queued, requests[n]) == queued then k else n;
    forall j | 0 <= j < |requests| ensures Beats(requests, winner, j) {
      if j < n {
        assert Beats(requests[..n], k, j);
      }
    }
  }
}
