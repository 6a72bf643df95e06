/** Records of notification attempts: the time between notifications, and what a run of attempts keeps. */
module NotificationRecords {
  import opened MonitoredObjects
  import opened Notifications

  // ----- the time between notifications -----

  /** Normal attempts one after the other while nothing else happens to the object. */
  function AfterAttempts(c: Config, s: Status, a: Alert, attempts: seq<Circumstances>): (r: (Alert, seq<Entry>))
    ensures |r.1| == |attempts|
  {
    if attempts == [] then (a, [])
    else
      var (before, log) := AfterAttempts(c, s, a, attempts[..|attempts| - 1]);
      var (after, entry) := Notify(c, s, before, attempts[|attempts| - 1], Normal, NONE);
      (after, log + [entry])
  }

  /** Everything but its timing lets a normal notification pass. */
  predicate Open(c: Config, s: Status, a: Alert, x: Circumstances) {
    && x.enabled && x.inPeriod && x.notificationsEnabled && PassesFilters(c, s, a, x)
    && !x.flapping && !x.downtime && (c.isService ==> !x.hostDowntime)
    && if s.currentState == OK then c.isService ==> a.number > 0
       else !a.noMoreNotifications && (c.isService ==> x.hostUp)
  }

  /** The time of the next problem notification has come. */
  predicate Due(c: Config, next: int, x: Circumstances) {
    x.time >= next || (c.isService && c.isVolatile)
  }

  /** The time of the next notification after a number of attempts none of which was viable: the last attempt outside
      the notification period set it anew. */
  function Deadline(a: Alert, attempts: seq<Circumstances>): int {
    if attempts == [] then a.nextNotification
    else
      var x := attempts[|attempts| - 1];
      if x.enabled && !x.inPeriod then NextInPeriod(x) else Deadline(a, attempts[..|attempts| - 1])
  }

  /** No attempt was viable. */
  predicate Quiet(log: seq<Entry>) {
    forall i :: 0 <= i < |log| ==> log[i].outcome.NotViable?
  }

  predicate GoesOut(c: Config, s: Status, a: Alert, attempts: seq<Circumstances>, i: nat)
    requires i < |attempts|
  {
    Open(c, s, a, attempts[i]) && Due(c, Deadline(a, attempts[..i]), attempts[i])
  }

  /** After a problem was notified, no attempt of any number of them is viable exactly if none is otherwise open and
      comes when its deadline has passed; and then nothing but the deadline has changed. */
  lemma {:induction false} QuietUntilNextTime(c: Config, s: Status, a: Alert, attempts: seq<Circumstances>)
    requires s.currentState != OK && a.number > 0
    ensures var (after, log) := AfterAttempts(c, s, a, attempts);
      && (Quiet(log) <==> forall i :: 0 <= i < |attempts| ==> !GoesOut(c, s, a, attempts, i))
      && (Quiet(log) ==> after == a.(nextNotification := Deadline(a, attempts)))
  {
    hide Notify, Open;
    if attempts != [] {
      var n := |attempts| - 1;
      var earlier := attempts[..n];
      QuietUntilNextTime(c, s, a, earlier);
      forall i | 0 <= i < n ensures GoesOut(c, s, a, attempts, i) == GoesOut(c, s, a, earlier, i) {
        assert earlier[..i] == attempts[..i];
      }
      OneMoreAttempt(c, s, a, Deadline(a, earlier), attempts[n]);
      LastAttempt(c, s, a, earlier, attempts[n]);
      assert earlier + [attempts[n]] == attempts;
      var (before, log) := AfterAttempts(c, s, a, earlier);
      var entry := Notify(c, s, before, attempts[n], Normal, NONE).1;
      assert (log + [entry])[n] == entry && forall i :: 0 <= i < n ==> (log + [entry])[i] == log[i];
      assert Quiet(log + [entry]) <==> Quiet(log) && entry.outcome.NotViable?;
      if !Quiet(log) {
        var i :| 0 <= i < n && GoesOut(c, s, a, earlier, i);
        assert GoesOut(c, s, a, attempts, i);
      } else {
        assert GoesOut(c, s, a, attempts, n) <==> !entry.outcome.NotViable?;
        assert forall i :: 0 <= i < n ==> !GoesOut(c, s, a, earlier, i);
      }
    }
  }

  lemma OneMoreAttempt(c: Config, s: Status, a: Alert, deadline: int, x: Circumstances)
    requires s.currentState != OK && a.number > 0
    ensures var (after, entry) := Notify(c, s, a.(nextNotification := deadline), x, Normal, NONE);
      && (entry.outcome.NotViable? <==> !(Open(c, s, a, x) && Due(c, deadline, x)))
      && (entry.outcome.NotViable? ==>
            after == a.(nextNotification := if x.enabled && !x.inPeriod then NextInPeriod(x) else deadline))
  {
  }

  /** An attempt outside the period brings the next notification forward: one that would have come too early goes out
      after it exactly if the next time in the period has come. */
  lemma ClosedPeriodReplacesNextTime(c: Config, s: Status, a: Alert, closed: Circumstances, x: Circumstances)
    requires s.currentState != OK && a.number > 0 && closed.enabled && !closed.inPeriod
    requires Open(c, s, a, x) && !Due(c, a.nextNotification, x)
    ensures AfterAttempts(c, s, a, [x]).1[0].outcome.NotViable?
    ensures AfterAttempts(c, s, a, [closed, x]).1[1].outcome.NotViable? <==> x.time < NextInPeriod(closed)
  {
    hide Notify, AfterAttempts;
    OneMoreAttempt(c, s, a, a.nextNotification, closed);
    OneMoreAttempt(c, s, a, a.nextNotification, x);
    OneMoreAttempt(c, s, a, NextInPeriod(closed), x);
    assert a.(nextNotification := a.nextNotification) == a;
    TwoAttempts(c, s, a, closed, x);
    TwoAttempts(c, s, a, x, x);
  }

  lemma LastAttempt(c: Config, s: Status, a: Alert, attempts: seq<Circumstances>, x: Circumstances)
    ensures var (before, log) := AfterAttempts(c, s, a, attempts);
      var (after, entry) := Notify(c, s, before, x, Normal, NONE);
      AfterAttempts(c, s, a, attempts + [x]) == (after, log + [entry])
  {
    hide Notify;
    assert (attempts + [x])[..|attempts|] == attempts;
  }

  lemma TwoAttempts(c: Config, s: Status, a: Alert, x: Circumstances, y: Circumstances)
    ensures AfterAttempts(c, s, a, [x]) == (Notify(c, s, a, x, Normal, NONE).0, [Notify(c, s, a, x, Normal, NONE).1])
    ensures var (between, first) := Notify(c, s, a, x, Normal, NONE);
      var (after, second) := Notify(c, s, between, y, Normal, NONE);
      AfterAttempts(c, s, a, [x, y]) == (after, [first, second])
  {
    hide Notify;
    var none: seq<Circumstances> := [];
    assert AfterAttempts(c, s, a, none) == (a, []);
    LastAttempt(c, s, a, none, x);
    LastAttempt(c, s, a, [x], y);
    assert none + [x] == [x] && [x] + [y] == [x, y];
    var (between, first) := Notify(c, s, a, x, Normal, NONE);
    var second := Notify(c, s, between, y, Normal, NONE).1;
    assert AfterAttempts(c, s, a, none).1 + [first] == [first];
    assert AfterAttempts(c, s, a, [x]) == (between, [first]);
    assert [first] + [second] == [first, second];
  }

  /** An attempt to notify about a problem is held back by the delay exactly if no number is left over and nothing is
      left over from which the delay could count, or it has not passed since then. */
  lemma FirstAttemptWaits(c: Config, s: Status, a: Alert, x: Circumstances)
    requires s.currentState != OK && NumbersHold(a) && c.firstNotificationDelay > 0
    requires Open(c, s, a, x) && Due(c, a.nextNotification, x)
    ensures Notify(c, s, a, x, Normal, NONE).1.outcome.NotViable? <==>
            a.number == 0 && (a.initialNotifTime == 0 || x.time < a.initialNotifTime + c.firstNotificationDelay)
  {
  }

  /** Circumstances in which nothing stands in the way of a notification. */
  function Clear(time: int): Circumstances {
    Circumstances(time, true, true, 0, true, true, false, false, false, true, Proceed, true, 1, time + 3600, false)
  }

  /** A service that notifies about everything, without delays. */
  function Eager(): Config {
    Config(true, 3, false, {OK, WARNING, CRITICAL, UNKNOWN}, true, true, 0, 0)
  }

  /** A problem notified at 1000, to be repeated at 4600, is notified again at 3000: an attempt at 2000 fell outside
      the period, which opens again at 3000. */
  lemma NotifiedEarly()
    ensures var critical := Status(CRITICAL, true, false);
      var notified := Notify(Eager(), critical, InitialAlert(), Clear(1000), Normal, NONE).0;
      var attempts := [Clear(2000).(inPeriod := false, nextValidTime := 3000), Clear(3000)];
      && notified.nextNotification == 4600
      && AfterAttempts(Eager(), critical, notified, attempts).1[1].outcome == Reached(1)
  {
    var critical := Status(CRITICAL, true, false);
    var notified := Notify(Eager(), critical, InitialAlert(), Clear(1000), Normal, NONE).0;
    TwoAttempts(Eager(), critical, notified, Clear(2000).(inPeriod := false, nextValidTime := 3000), Clear(3000));
  }

  // ----- recoveries and problems in the record of a run -----

  /** A recovery notification that reached the contact stage. */
  predicate IsRecovery(e: Entry) { e.kind == Normal && e.state == OK && e.outcome.Reached? }

  /** A problem notification that reached at least one contact. */
  predicate IsProblem(e: Entry) { e.kind == Normal && e.state != OK && e.outcome.Reached? && e.outcome.notified > 0 }

  /** A recovery that settles the problem: not one made at an end of flapping, which leaves the flags set. */
  predicate Settles(e: Entry) { IsRecovery(e) && !e.atFlapEnd }

  /** Since the problem before was settled, or since the beginning of the record with a pending problem, a problem was
      notified. */
  predicate ProblemPending(log: seq<Entry>, atStart: bool) {
    if log == [] then atStart
    else
      var last := log[|log| - 1];
      if Settles(last) then false else IsProblem(last) || ProblemPending(log[..|log| - 1], atStart)
  }

  /** Every recovery of the record answers a problem notified since the one before was settled. */
  ghost predicate RecoveriesAnswerProblems(log: seq<Entry>, atStart: bool) {
    forall i :: 0 <= i < |log| && IsRecovery(log[i]) ==> ProblemPending(log[..i], atStart)
  }

  /** Then two recoveries are separated by a problem notification that reached a contact, unless the first was made at
      an end of flapping. */
  lemma AtMostOneRecoveryPerProblem(log: seq<Entry>, atStart: bool, i: nat, j: nat)
    requires RecoveriesAnswerProblems(log, atStart) && i < j < |log| && IsRecovery(log[i]) && IsRecovery(log[j])
    ensures log[i].atFlapEnd || exists k :: i < k < j && IsProblem(log[k])
  {
    if !log[i].atFlapEnd {
      var k := PendingSince(log[..j], atStart, i);
    }
  }

  lemma {:induction false} PendingSince(log: seq<Entry>, atStart: bool, i: nat) returns (k: nat)
    requires i < |log| && Settles(log[i]) && ProblemPending(log, atStart)
    ensures i < k < |log| && IsProblem(log[k])
  {
    var n := |log| - 1;
    if IsProblem(log[n]) {
      k := n;
    } else {
      k := PendingSince(log[..n], atStart, i);
    }
  }

  /** A record that begins without pending problems has seen the problem that is pending. */
  lemma {:induction false} PendingProblem(log: seq<Entry>) returns (k: nat)
    requires ProblemPending(log, false)
    ensures k < |log| && IsProblem(log[k])
  {
    var n := |log| - 1;
    if IsProblem(log[n]) {
      k := n;
    } else {
      k := PendingProblem(log[..n]);
    }
  }

  lemma {:induction false} AppendEntry(log: seq<Entry>, e: Entry, atStart: bool)
    requires RecoveriesAnswerProblems(log, atStart) && (IsRecovery(e) ==> ProblemPending(log, atStart))
    ensures RecoveriesAnswerProblems(log + [e], atStart)
    ensures ProblemPending(log + [e], atStart) == (!Settles(e) && (IsProblem(e) || ProblemPending(log, atStart)))
  {
    assert (log + [e])[..|log|] == log;
    forall i | 0 <= i < |log| + 1 && IsRecovery((log + [e])[i]) ensures ProblemPending((log + [e])[..i], atStart) {
      if i < |log| {
        assert (log + [e])[..i] == log[..i];
      }
    }
  }

  /** A record that is continued: what was pending at its end is what the continuation starts with. */
  lemma {:induction false} Continue(log: seq<Entry>, more: seq<Entry>, atStart: bool, between: bool)
    requires RecoveriesAnswerProblems(log, atStart) && RecoveriesAnswerProblems(more, between)
    requires between ==> ProblemPending(log, atStart)
    ensures RecoveriesAnswerProblems(log + more, atStart)
    ensures ProblemPending(more, between) ==> ProblemPending(log + more, atStart)
  {
    if more == [] {
      assert log + more == log;
    } else {
      var n := |more| - 1;
      forall i | 0 <= i < n && IsRecovery(more[..n][i]) ensures ProblemPending(more[..n][..i], between) {
        assert more[..n][..i] == more[..i];
      }
      Continue(log, more[..n], atStart, between);
      AppendEntry(log + more[..n], more[n], atStart);
      assert log + more == log + more[..n] + [more[n]];
    }
  }

  // ----- numbers in a record -----

  /** The number of the last problem notification that reached a contact. */
  function LastProblemNumber(log: seq<Entry>, atStart: int): int {
    if log == [] then atStart
    else if IsProblem(log[|log| - 1]) then log[|log| - 1].number
    else LastProblemNumber(log[..|log| - 1], atStart)
  }

  /** Every recovery carries the number that follows that of the last problem notification. */
  ghost predicate RecoveriesFollowNumbers(log: seq<Entry>, atStart: int) {
    forall i :: 0 <= i < |log| && IsRecovery(log[i]) ==> log[i].number == LastProblemNumber(log[..i], atStart) + 1
  }

  lemma {:induction false} ContinueNumber(log: seq<Entry>, more: seq<Entry>, atStart: int)
    ensures LastProblemNumber(log + more, atStart) == LastProblemNumber(more, LastProblemNumber(log, atStart))
  {
    if more == [] {
      assert log + more == log;
    } else {
      ContinueNumber(log, more[..|more| - 1], atStart);
      assert (log + more)[..|log + more| - 1] == log + more[..|more| - 1];
    }
  }

  /** Once a problem was notified, the number from the start no longer matters. */
  lemma {:induction false} PendingSetsNumber(log: seq<Entry>, m: int, n: int)
    requires ProblemPending(log, false)
    ensures LastProblemNumber(log, m) == LastProblemNumber(log, n)
  {
    if !IsProblem(log[|log| - 1]) {
      PendingSetsNumber(log[..|log| - 1], m, n);
    }
  }

  /** A pending problem has a last notification, and no recovery has come after it. */
  lemma {:induction false} LastProblem(log: seq<Entry>, number: int) returns (k: nat)
    requires ProblemPending(log, false)
    ensures k < |log| && IsProblem(log[k]) && log[k].number == LastProblemNumber(log, number)
    ensures forall j :: k < j < |log| ==> !IsProblem(log[j]) && !Settles(log[j])
  {
    var n := |log| - 1;
    if IsProblem(log[n]) {
      k := n;
    } else {
      k := LastProblem(log[..n], number);
      assert forall j :: k < j < n ==> log[..n][j] == log[j];
    }
  }

  /** A record of one attempt. */
  lemma SingleEntry(e: Entry, atStart: bool, number: int)
    ensures RecoveriesAnswerProblems([e], atStart) <==> (IsRecovery(e) ==> atStart)
    ensures ProblemPending([e], atStart) <==> !Settles(e) && (IsProblem(e) || atStart)
    ensures RecoveriesFollowNumbers([e], number) <==> (IsRecovery(e) ==> e.number == number + 1)
    ensures LastProblemNumber([e], number) == if IsProblem(e) then e.number else number
  {
    assert [e][..0] == [] && [e][0] == e;
    assert ProblemPending([e][..0], atStart) == atStart && LastProblemNumber([e][..0], number) == number;
  }

  // ----- what a step or a run keeps -----

  /** Neither number nor flags are taken back, except that both are cleared together. */
  predicate ClearedTogether(before: Alert, after: Alert) {
    (before.number <= after.number && before.notifiedOn <= after.notifiedOn)
      || (after.number == 0 && after.notifiedOn == {})
  }

  /** Set flags stand for a problem that was notified and not yet answered, and every recovery answers one. */
  ghost predicate FlagsFollow(before: Alert, after: Alert, log: seq<Entry>) {
    && RecoveriesAnswerProblems(log, before.notifiedOn != {})
    && (after.notifiedOn != {} ==> ProblemPending(log, before.notifiedOn != {}))
  }

  /** While flags are set the number is that of the last problem notification, and a recovery carries the next one. */
  ghost predicate NumberFollows(before: Alert, after: Alert, log: seq<Entry>) {
    && RecoveriesFollowNumbers(log, before.number)
    && (after.notifiedOn != {} ==> after.number == LastProblemNumber(log, before.number))
  }

  /** Both are kept from one step to the next. */
  lemma FollowOn(before: Alert, between: Alert, after: Alert, log: seq<Entry>, more: seq<Entry>)
    requires FlagsFollow(before, between, log) && FlagsFollow(between, after, more)
    ensures FlagsFollow(before, after, log + more)
    ensures NumberFollows(before, between, log) && NumberFollows(between, after, more) ==>
      NumberFollows(before, after, log + more)
  {
    Continue(log, more, before.notifiedOn != {}, between.notifiedOn != {});
    if NumberFollows(before, between, log) && NumberFollows(between, after, more) {
      NumbersFollowOn(before, between, after, log, more);
    }
  }

  lemma NumbersFollowOn(before: Alert, between: Alert, after: Alert, log: seq<Entry>, more: seq<Entry>)
    requires FlagsFollow(before, between, log) && FlagsFollow(between, after, more)
    requires NumberFollows(before, between, log) && NumberFollows(between, after, more)
    ensures NumberFollows(before, after, log + more)
  {
    var start := LastProblemNumber(log, before.number);
    forall i | 0 <= i < |log + more| && IsRecovery((log + more)[i])
      ensures (log + more)[i].number == LastProblemNumber((log + more)[..i], before.number) + 1
    {
      if i < |log| {
        assert (log + more)[..i] == log[..i];
      } else {
        assert (log + more)[..i] == log + more[..i - |log|];
        ContinueNumber(log, more[..i - |log|], before.number);
        if between.notifiedOn == {} {
          PendingSetsNumber(more[..i - |log|], between.number, start);
        }
      }
    }
    ContinueNumber(log, more, before.number);
    if after.notifiedOn != {} && between.notifiedOn == {} {
      PendingSetsNumber(more, between.number, start);
    }
  }

  /** An attempt is not stopped by the broker or told to raise the number. */
  predicate Undisturbed(x: Circumstances, options: Options) { x.broker == Proceed && !options.increment }

  /** What a single attempt that is not a recovery does to number and flags. */
  lemma AttemptFacts(c: Config, s: Status, a: Alert, x: Circumstances, kind: Kind, options: Options)
    requires NumbersHold(a) && (kind == Normal ==> s.currentState != OK && !options.forced)
    ensures var (after, entry) := Notify(c, s, a, x, kind, options);
      && NumbersHold(after) && a.number <= after.number && a.notifiedOn <= after.notifiedOn
      && !IsRecovery(entry) && !entry.atFlapEnd && (!IsProblem(entry) ==> after.notifiedOn == a.notifiedOn)
      && (Undisturbed(x, options) ==> after.number == if IsProblem(entry) then entry.number else a.number)
  {
    hide PassesFilters, PassesDelay, PassesRest;
  }

  /** So it keeps both rules. */
  lemma AttemptFollows(c: Config, s: Status, a: Alert, x: Circumstances, kind: Kind, options: Options)
    requires NumbersHold(a) && (kind == Normal ==> s.currentState != OK && !options.forced)
    ensures var (after, entry) := Notify(c, s, a, x, kind, options);
      && NumbersHold(after) && ClearedTogether(a, after) && FlagsFollow(a, after, [entry]) && !entry.atFlapEnd
      && (Undisturbed(x, options) ==> NumberFollows(a, after, [entry]))
  {
    hide Notify;
    AttemptFacts(c, s, a, x, kind, options);
    SingleEntry(Notify(c, s, a, x, kind, options).1, a.notifiedOn != {}, a.number);
  }

  /** A recovery attempt keeps both if number and flags are cleared whenever it reached its contacts. */
  lemma RecoveryFollows(c: Config, s: Status, a: Alert, x: Circumstances)
    requires NumbersHold(a) && s.currentState == OK
    ensures var (after, entry) := Notify(c, s, a, x, Normal, NONE);
      && NumbersHold(after) && a.number <= after.number && after.notifiedOn == a.notifiedOn && entry.state == OK
      && !entry.atFlapEnd
      && (IsRecovery(entry) ==> a.notifiedOn != {} && after.recoveryBeenSent && entry.number == a.number + 1)
      && (!IsRecovery(entry) && Undisturbed(x, NONE) ==> after.number == a.number)
      && (a.notifiedOn == {} ==> after.number == a.number && after.recoveryBeenSent == a.recoveryBeenSent)
  {
    hide PassesDelay, PassesRest;
  }

  /** Notices of flapping keep the rule on flags, and that on numbers unless a recovery is owed. */
  lemma FlapNoticesFollow(c: Config, s: Status, a: Alert, flap: FlapChange)
    requires NumbersHold(a)
    ensures var (after, log) := FlapNotices(c, s, a, flap);
      && NumbersHold(after) && a.number <= after.number && after.notifiedOn == a.notifiedOn
      && (a.notifiedOn == {} ==> after.number == a.number) && FlagsFollow(a, after, log)
      && (!Owed(flap) ==> after.number == a.number && NumberFollows(a, after, log) && NoneAtFlapEnd(log))
  {
    hide Notify;
    match flap
    case FlapSteady =>
    case FlapStarts(notice) => NoticeFollows(c, s, a, notice);
    case FlapEnds(notice, owed, recovery) =>
      NoticeFollows(c, s, a, notice);
      var (noticed, entry) := Notify(c, s, a, notice, Flapping, NONE);
      if owed && s.currentState == OK {
        OwedRecoveryFollows(c, s, noticed, recovery);
        var (after, second) := Notify(c, s, noticed, recovery, Normal, NONE);
        FollowOn(a, noticed, after, [entry], [second.(atFlapEnd := true)]);
        assert [entry] + [second.(atFlapEnd := true)] == [entry, second.(atFlapEnd := true)];
      }
  }

  /** The recovery the end of flapping makes answers a problem and settles nothing. */
  lemma OwedRecoveryFollows(c: Config, s: Status, a: Alert, x: Circumstances)
    requires NumbersHold(a) && s.currentState == OK
    ensures var (after, entry) := Notify(c, s, a, x, Normal, NONE);
      && NumbersHold(after) && a.number <= after.number && after.notifiedOn == a.notifiedOn
      && (a.notifiedOn == {} ==> after.number == a.number) && FlagsFollow(a, after, [entry.(atFlapEnd := true)])
  {
    hide Notify;
    RecoveryFollows(c, s, a, x);
    SingleEntry(Notify(c, s, a, x, Normal, NONE).1.(atFlapEnd := true), a.notifiedOn != {}, a.number);
  }

  /** No attempt of the record was made for a recovery owed at an end of flapping. */
  predicate NoneAtFlapEnd(log: seq<Entry>) {
    forall i :: 0 <= i < |log| ==> !log[i].atFlapEnd
  }

  lemma NoticeFollows(c: Config, s: Status, a: Alert, x: Circumstances)
    requires NumbersHold(a)
    ensures var (after, entry) := Notify(c, s, a, x, Flapping, NONE);
      && NumbersHold(after) && after.number == a.number && after.notifiedOn == a.notifiedOn && !entry.atFlapEnd
      && FlagsFollow(a, after, [entry]) && NumberFollows(a, after, [entry])
  {
    var (after, entry) := Notify(c, s, a, x, Flapping, NONE);
    SingleEntry(entry, a.notifiedOn != {}, a.number);
  }

  predicate Owed(flap: FlapChange) { flap.FlapEnds? && flap.owed }

  // ----- counting normal attempts -----

  /** How many of the attempts were normal ones. */
  function Normals(log: seq<Entry>): nat {
    if log == [] then 0 else Normals(log[..|log| - 1]) + if log[|log| - 1].kind == Normal then 1 else 0
  }

  lemma {:induction false} NormalsAppend(log: seq<Entry>, more: seq<Entry>)
    ensures Normals(log + more) == Normals(log) + Normals(more)
  {
    if more == [] {
      assert log + more == log;
    } else {
      NormalsAppend(log, more[..|more| - 1]);
      assert (log + more)[..|log + more| - 1] == log + more[..|more| - 1];
    }
  }

  /** Flap detection makes no normal attempt while there is a problem. */
  lemma NoticesAreNotNormal(c: Config, s: Status, a: Alert, flap: FlapChange)
    requires s.currentState != OK
    ensures Normals(FlapNotices(c, s, a, flap).1) == 0
  {
  }
}
