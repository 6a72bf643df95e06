/** Execution and notification dependencies: check_service_dependencies and check_host_dependencies
    (src/checks.cc), which differ only in the names of the states. State 0 is OK or UP. */
module Dependencies {

  datatype DependencyType = NotificationDependency | ExecutionDependency

  const GOOD := 0

  class Monitored {
    var currentState: int
    var lastHardState: int
    var soft: bool
    var hasBeenChecked: bool

    constructor (state: int)
      ensures currentState == lastHardState == state && !soft && !hasBeenChecked
    {
      currentState, lastHardState, soft, hasBeenChecked := state, state, false, false;
    }
  }

  /** A dependency on a master object, which is null when it was never resolved. inPeriod tells whether the
      dependency has no period or the current time lies in it. */
  datatype Dependency = Dependency(
    kind: DependencyType, master: Monitored?, inPeriod: bool,
    failOn: set<int>, failOnPending: bool, inheritsParent: bool)

  type Table = map<Monitored, seq<Dependency>>

  /** Every resolved master is in the table, and following dependencies lowers the rank. */
  ghost predicate Acyclic(table: Table, rank: map<Monitored, nat>) {
    && rank.Keys == table.Keys
    && forall o, d :: o in table && d in table[o] && d.master != null ==>
         d.master in table && rank[d.master] < rank[o]
  }

  predicate Eligible(d: Dependency, kind: DependencyType) { d.kind == kind && d.master != null }

  /** The state the dependency looks at is one it fails on. */
  predicate Trips(d: Dependency, softStateDependencies: bool)
    requires d.master != null
    reads d.master
  {
    var state := if d.master.soft && !softStateDependencies then d.master.lastHardState else d.master.currentState;
    state in d.failOn || (state == GOOD && !d.master.hasBeenChecked && d.failOnPending)
  }

  /** The i-th dependency is looked at: it is of the kind asked for, and neither it nor one listed before it is
      outside its period. */
  ghost predicate LookedAt(deps: seq<Dependency>, kind: DependencyType, i: nat) {
    && i < |deps| && Eligible(deps[i], kind)
    && forall j :: 0 <= j <= i && Eligible(deps[j], kind) ==> deps[j].inPeriod
  }

  /** A chain of dependencies, given by their positions: each is looked at, all but the last inherit their
      master's dependencies, and the last one trips. */
  ghost predicate FailingChain(table: Table, o: Monitored, kind: DependencyType, softDeps: bool, chain: seq<nat>)
    reads table.Keys
    decreases |chain|
  {
    && |chain| > 0 && o in table && LookedAt(table[o], kind, chain[0])
    && var d := table[o][chain[0]];
       d.master in table &&
       if |chain| == 1 then Trips(d, softDeps)
       else d.inheritsParent && FailingChain(table, d.master, kind, softDeps, chain[1..])
  }

  ghost predicate Fails(table: Table, o: Monitored, kind: DependencyType, softDeps: bool)
    reads table.Keys
  {
    exists chain :: FailingChain(table, o, kind, softDeps, chain)
  }

  /** The state a dependency looks at is the last hard one of a soft master, unless soft states count, and the current
      one of any other; a good state of a master that was never checked counts as pending. */
  lemma StateLookedAt(d: Dependency, softDeps: bool)
    requires d.master != null
    ensures d.master.soft && !softDeps && d.master.lastHardState != 0 ==>
      (Trips(d, softDeps) <==> d.master.lastHardState in d.failOn)
    ensures !d.master.soft || softDeps ==>
      (d.master.currentState != 0 ==> (Trips(d, softDeps) <==> d.master.currentState in d.failOn))
    ensures (if d.master.soft && !softDeps then d.master.lastHardState else d.master.currentState) == 0 ==>
      (Trips(d, softDeps) <==> 0 in d.failOn || (d.failOnPending && !d.master.hasBeenChecked))
  {
  }

  /** A dependency that the check gets to: its master was resolved, it is of the kind asked for, and no dependency of
      that kind up to it is outside its period. */
  ghost predicate Reached(deps: seq<Dependency>, kind: DependencyType, i: nat) {
    && i < |deps| && deps[i].kind == kind && deps[i].master != null
    && forall j :: 0 <= j <= i && deps[j].kind == kind && !deps[j].inPeriod ==> deps[j].master == null
  }

  lemma InheritedFailure(table: Table, o: Monitored, kind: DependencyType, softDeps: bool, i: nat)
    requires o in table && LookedAt(table[o], kind, i) && table[o][i].inheritsParent
    requires table[o][i].master in table && Fails(table, table[o][i].master, kind, softDeps)
    ensures Fails(table, o, kind, softDeps)
  {
    var chain :| FailingChain(table, table[o][i].master, kind, softDeps, chain);
    assert ([i] + chain)[1..] == chain;
    assert FailingChain(table, o, kind, softDeps, [i] + chain);
  }

  /** The check gets to this dependency, and it trips or inherits the dependencies of a master whose own check fails. */
  ghost predicate FailsAt(table: Table, o: Monitored, kind: DependencyType, softDeps: bool, i: nat)
    requires o in table
    reads table.Keys
  {
    && Reached(table[o], kind, i) && table[o][i].master in table
    && (Trips(table[o][i], softDeps)
        || (table[o][i].inheritsParent && Fails(table, table[o][i].master, kind, softDeps)))
  }

  /** The check fails exactly if there is such a dependency. */
  lemma FailureMeans(table: Table, o: Monitored, kind: DependencyType, softDeps: bool)
    requires o in table
    ensures Fails(table, o, kind, softDeps) <==> exists i: nat :: FailsAt(table, o, kind, softDeps, i)
  {
    if Fails(table, o, kind, softDeps) {
      var chain :| FailingChain(table, o, kind, softDeps, chain);
      var i := chain[0];
      assert LookedAt(table[o], kind, i) && Reached(table[o], kind, i);
      if |chain| > 1 {
        assert FailingChain(table, table[o][i].master, kind, softDeps, chain[1..]);
      }
      assert FailsAt(table, o, kind, softDeps, i);
    }
    if i: nat :| FailsAt(table, o, kind, softDeps, i) {
      assert LookedAt(table[o], kind, i);
      if Trips(table[o][i], softDeps) {
        assert FailingChain(table, o, kind, softDeps, [i]);
      } else {
        InheritedFailure(table, o, kind, softDeps, i);
      }
    }
  }

  /** check_service_dependencies and check_host_dependencies: the check fails exactly if there is a failing chain. */
  method CheckDependencies(table: Table, o: Monitored, kind: DependencyType, softStateDependencies: bool,
                           ghost rank: map<Monitored, nat>)
    returns (failed: bool)
    requires Acyclic(table, rank) && o in table
    ensures failed <==> Fails(table, o, kind, softStateDependencies)
    decreases rank[o]
  {
    var deps := table[o];
    var i := 0;
    while i < |deps|
      invariant 0 <= i <= |deps|
      invariant forall j :: 0 <= j < i && Eligible(deps[j], kind) ==> deps[j].inPeriod
      invariant forall chain :: FailingChain(table, o, kind, softStateDependencies, chain) ==> chain[0] >= i
    {
      var d := deps[i];
      i := i + 1;
      if d.kind != kind {
        continue;
      }
      if d.master == null {
        continue;
      }
      if !d.inPeriod {
        return false;
      }
      if Trips(d, softStateDependencies) {
        assert FailingChain(table, o, kind, softStateDependencies, [i - 1]);
        return true;
      }
      if d.inheritsParent {
        var masterFailed := CheckDependencies(table, d.master, kind, softStateDependencies, rank);
        if masterFailed {
          InheritedFailure(table, o, kind, softStateDependencies, i - 1);
          return true;
        }
      }
    }
    return false;
  }

  // ----- dependencies outside their period -----

  /** A chain under the reading that a dependency outside its period is merely skipped: what is listed before a link
      does not matter. */
  ghost predicate SkipChain(table: Table, o: Monitored, kind: DependencyType, softDeps: bool, chain: seq<nat>)
    reads table.Keys
    decreases |chain|
  {
    && |chain| > 0 && o in table && chain[0] < |table[o]|
    && var d := table[o][chain[0]];
       Eligible(d, kind) && d.inPeriod && d.master in table &&
       if |chain| == 1 then Trips(d, softDeps)
       else d.inheritsParent && SkipChain(table, d.master, kind, softDeps, chain[1..])
  }

  ghost predicate NoneBehindClosedIn(deps: seq<Dependency>, kind: DependencyType) {
    forall i, j :: 0 <= i < j < |deps| && Eligible(deps[i], kind) && Eligible(deps[j], kind) ==> deps[i].inPeriod
  }

  /** No eligible dependency stands behind one outside its period. */
  ghost predicate NoneBehindClosed(table: Table, kind: DependencyType) {
    forall o :: o in table ==> NoneBehindClosedIn(table[o], kind)
  }

  /** Whatever fails also fails under the skipping reading; the two agree where no eligible dependency stands behind a
      closed one. */
  lemma {:induction false} SkippingFailsToo(table: Table, o: Monitored, kind: DependencyType, softDeps: bool,
                                            chain: seq<nat>)
    ensures FailingChain(table, o, kind, softDeps, chain) ==> SkipChain(table, o, kind, softDeps, chain)
    ensures NoneBehindClosed(table, kind) && SkipChain(table, o, kind, softDeps, chain) ==>
      FailingChain(table, o, kind, softDeps, chain)
    decreases |chain|
  {
    if |chain| > 1 && o in table && chain[0] < |table[o]| && table[o][chain[0]].master != null {
      SkippingFailsToo(table, table[o][chain[0]].master, kind, softDeps, chain[1..]);
    }
  }

  function Closed(kind: DependencyType, master: Monitored): Dependency {
    Dependency(kind, master, false, {}, false, false)
  }

  function FailsAlways(kind: DependencyType, master: Monitored): Dependency
    reads master
  {
    Dependency(kind, master, true, {master.currentState, master.lastHardState}, false, false)
  }

  /** A dependency outside its period is not skipped: it ends the check. With a closed dependency in front of one that
      fails in every state the skipping reading fails, and the check does not. */
  lemma ClosedPeriodEndsCheck(o: Monitored, master: Monitored, kind: DependencyType, softDeps: bool)
    requires o != master
    ensures var table: Table := map[o := [Closed(kind, master), FailsAlways(kind, master)], master := []];
      SkipChain(table, o, kind, softDeps, [1]) && !Fails(table, o, kind, softDeps)
  {
    var table: Table := map[o := [Closed(kind, master), FailsAlways(kind, master)], master := []];
    assert table[o][0] == Closed(kind, master) && table[o][1] == FailsAlways(kind, master);
    forall chain ensures !FailingChain(table, o, kind, softDeps, chain) {
      if FailingChain(table, o, kind, softDeps, chain) {
        assert LookedAt(table[o], kind, chain[0]) && Eligible(table[o][0], kind);
        assert false;
      }
    }
  }
}
