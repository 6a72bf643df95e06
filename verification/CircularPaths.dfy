/** Circular parent/child paths between hosts: the five-mark depth-first search
    that runs before the engine starts (src/config.cc). */

/** Walks, cycles and parents in a finite directed graph whose edges are ordered child lists. */
module Graphs {

  type Graph<!T> = map<T, seq<T>>

  ghost predicate Closed<T>(g: Graph<T>) {
    forall u, v :: u in g && v in g[u] ==> v in g
  }

  /** There is a walk of exactly n edges from u to v. */
  ghost predicate Walk<T>(g: Graph<T>, u: T, v: T, n: nat)
    requires Closed(g) && u in g
  {
    if n == 0 then u == v else exists w :: w in g[u] && Walk(g, w, v, n - 1)
  }

  ghost predicate CanReach<T>(g: Graph<T>, u: T, v: T)
    requires Closed(g) && u in g
  {
    exists n: nat :: Walk(g, u, v, n)
  }

  ghost predicate OnCycle<T>(g: Graph<T>, u: T)
    requires Closed(g) && u in g
  {
    exists n: nat :: n > 0 && Walk(g, u, u, n)
  }

  ghost predicate ReachesCycle<T>(g: Graph<T>, u: T)
    requires Closed(g) && u in g
  {
    exists v :: v in g && CanReach(g, u, v) && OnCycle(g, v)
  }

  ghost predicate HasCycle<T>(g: Graph<T>)
    requires Closed(g)
  {
    exists v :: v in g && OnCycle(g, v)
  }

  ghost predicate HasParent<T>(g: Graph<T>, u: T) {
    exists p :: p in g && u in g[p]
  }

  lemma {:induction false} WalkEndsInGraph<T>(g: Graph<T>, u: T, v: T, n: nat)
    requires Closed(g) && u in g && Walk(g, u, v, n)
    ensures v in g
  {
    if n > 0 {
      var w :| w in g[u] && Walk(g, w, v, n - 1);
      WalkEndsInGraph(g, w, v, n - 1);
    }
  }

  lemma {:induction false} WalkConcat<T>(g: Graph<T>, u: T, v: T, w: T, m: nat, n: nat)
    requires Closed(g) && u in g && Walk(g, u, v, m) && v in g && Walk(g, v, w, n)
    ensures Walk(g, u, w, m + n)
  {
    if m > 0 {
      var x :| x in g[u] && Walk(g, x, v, m - 1);
      WalkConcat(g, x, v, w, m - 1, n);
      assert Walk(g, x, w, m + n - 1);
    }
  }

  lemma EdgeIsWalk<T>(g: Graph<T>, u: T, v: T)
    requires Closed(g) && u in g && v in g[u]
    ensures Walk(g, u, v, 1) && CanReach(g, u, v)
  {
    assert Walk(g, v, v, 0);
  }

  lemma ReachRefl<T>(g: Graph<T>, u: T)
    requires Closed(g) && u in g
    ensures CanReach(g, u, u)
  {
    assert Walk(g, u, u, 0);
  }

  lemma ReachTrans<T>(g: Graph<T>, u: T, v: T, w: T)
    requires Closed(g) && u in g && v in g && CanReach(g, u, v) && CanReach(g, v, w)
    ensures CanReach(g, u, w)
  {
    var m: nat :| Walk(g, u, v, m);
    var n: nat :| Walk(g, v, w, n);
    WalkConcat(g, u, v, w, m, n);
  }

  /** An edge back to a node that reaches its tail closes a cycle through both ends. */
  lemma BackEdge<T>(g: Graph<T>, u: T, c: T)
    requires Closed(g) && u in g && c in g[u] && CanReach(g, c, u)
    ensures ReachesCycle(g, u) && ReachesCycle(g, c)
  {
    var n: nat :| Walk(g, c, u, n);
    EdgeIsWalk(g, u, c);
    WalkConcat(g, u, c, u, 1, n);
    WalkConcat(g, c, u, c, n, 1);
    assert OnCycle(g, u) && OnCycle(g, c);
    ReachRefl(g, u);
    ReachRefl(g, c);
  }

  lemma CycleThroughChild<T>(g: Graph<T>, u: T, c: T)
    requires Closed(g) && u in g && c in g[u] && ReachesCycle(g, c)
    ensures ReachesCycle(g, u)
  {
    var v :| v in g && CanReach(g, c, v) && OnCycle(g, v);
    EdgeIsWalk(g, u, c);
    ReachTrans(g, u, c, v);
  }

  /** A node reaches a cycle only through one of its children. */
  lemma CycleNeedsChild<T>(g: Graph<T>, u: T)
    requires Closed(g) && u in g && ReachesCycle(g, u)
    ensures exists c :: c in g[u] && ReachesCycle(g, c)
  {
    var v :| v in g && CanReach(g, u, v) && OnCycle(g, v);
    var n: nat :| Walk(g, u, v, n);
    var k: nat :| k > 0 && Walk(g, v, v, k);
    WalkConcat(g, u, v, v, n, k);
    var c :| c in g[u] && Walk(g, c, v, n + k - 1);
    assert CanReach(g, c, v);
  }

  /** A cycle node is the child of a node it reaches. */
  lemma CyclePredecessor<T>(g: Graph<T>, u: T, v: T, n: nat) returns (p: T)
    requires Closed(g) && u in g && n > 0 && Walk(g, u, v, n)
    ensures p in g && CanReach(g, u, p) && v in g[p]
  {
    var w :| w in g[u] && Walk(g, w, v, n - 1);
    if n == 1 {
      ReachRefl(g, u);
      p := u;
    } else {
      p := CyclePredecessor(g, w, v, n - 1);
      EdgeIsWalk(g, u, w);
      ReachTrans(g, u, w, p);
    }
  }

  /** A set closed under children contains everything its members reach. */
  lemma {:induction false} ClosedSetContainsReach<T>(g: Graph<T>, s: set<T>, u: T, v: T)
    requires Closed(g) && u in g && u in s && CanReach(g, u, v)
    requires forall x, c :: x in g && x in s && c in g[x] ==> c in s
    ensures v in s
  {
    var n: nat :| Walk(g, u, v, n);
    ClosedSetContainsWalk(g, s, u, v, n);
  }

  lemma {:induction false} ClosedSetContainsWalk<T>(g: Graph<T>, s: set<T>, u: T, v: T, n: nat)
    requires Closed(g) && u in g && u in s && Walk(g, u, v, n)
    requires forall x, c :: x in g && x in s && c in g[x] ==> c in s
    ensures v in s
  {
    if n > 0 {
      var w :| w in g[u] && Walk(g, w, v, n - 1);
      ClosedSetContainsWalk(g, s, w, v, n - 1);
    }
  }
}

module CircularPaths {
  import opened Graphs

  datatype Mark = Unchecked | TempChecked | Ok | NearLoop | Loopy

  class Host {
    var childHosts: seq<Host>
    var mark: Mark

    constructor (children: seq<Host>)
      ensures childHosts == children && mark == Unchecked
    {
      childHosts, mark := children, Unchecked;
    }
  }

  /** g is the parent/child graph of the hosts it lists. */
  ghost predicate GraphOf(g: Graph<Host>)
    reads g.Keys
  {
    Closed(g) && forall h :: h in g ==> h.childHosts == g[h]
  }

  ghost predicate InList(hosts: seq<Host>, g: Graph<Host>) {
    (forall h :: h in g ==> h in hosts) && (forall h :: h in hosts ==> h in g)
  }

  predicate Trouble(m: Mark) { m == NearLoop || m == Loopy }

  type Marks = map<Host, Mark>

  ghost function MarksOf(g: Graph<Host>): (m: Marks)
    reads g.Keys
    ensures m.Keys == g.Keys
  {
    map h | h in g :: h.mark
  }

  /** What the marks mean while the hosts in stack are still being scanned. */
  ghost predicate MarksMean(g: Graph<Host>, m: Marks, stack: set<Host>)
    requires Closed(g) && m.Keys == g.Keys
  {
    forall h :: h in g ==> MarkMeans(g, m, stack, h)
  }

  ghost predicate MarkMeans(g: Graph<Host>, m: Marks, stack: set<Host>, h: Host)
    requires Closed(g) && m.Keys == g.Keys && h in g
  {
    && (m[h] == Ok ==> !ReachesCycle(g, h))
    && (Trouble(m[h]) ==> ReachesCycle(g, h))
    && (m[h] == Loopy ==> HasParent(g, h))
    && (m[h] == TempChecked ==> h in stack)
    && (h in stack ==> m[h] != Unchecked && m[h] != Ok)
    && (h !in stack && m[h] != Unchecked ==> Settled(m, g[h]))
  }

  /** Every host of the list carries one of the two verdicts that are never revised. */
  ghost predicate Settled(m: Marks, hosts: seq<Host>) {
    forall c :: c in hosts ==> c in m && (m[c] == Ok || m[c] == Loopy)
  }

  /** The first k children are settled, and all of them are Ok unless root is in trouble. */
  ghost predicate Scanned(m: Marks, root: Host, children: seq<Host>, k: int)
    requires 0 <= k <= |children| && root in m
  {
    forall j :: 0 <= j < k ==>
      children[j] in m && if m[root] == TempChecked then m[children[j]] == Ok else m[children[j]] in {Ok, Loopy}
  }

  lemma ScannedForward(before: Marks, after: Marks, root: Host, children: seq<Host>, k: nat)
    requires Forward(before, after) && root in before && k < |children| && Scanned(before, root, children, k)
    requires before[root] != Unchecked && children[k] in after
    requires if after[root] == TempChecked then after[children[k]] == Ok else after[children[k]] in {Ok, Loopy}
    ensures Scanned(after, root, children, k + 1)
  {
  }

  /** Marks only move forward: a verdict of Ok or Loopy is never revised. */
  predicate MayBecome(before: Mark, after: Mark) {
    match before
    case Unchecked => true
    case TempChecked => after == TempChecked || Trouble(after)
    case NearLoop => Trouble(after)
    case _ => after == before
  }

  ghost predicate Forward(before: Marks, after: Marks) {
    before.Keys == after.Keys && forall h :: h in before ==> MayBecome(before[h], after[h])
  }

  lemma ForwardTrans(a: Marks, b: Marks, c: Marks)
    requires Forward(a, b) && Forward(b, c)
    ensures Forward(a, c)
  {
    forall h | h in a ensures MayBecome(a[h], c[h]) {
      assert MayBecome(a[h], b[h]) && MayBecome(b[h], c[h]);
    }
  }

  ghost function UncheckedIn(m: Marks): set<Host> {
    set h | h in m && m[h] == Unchecked
  }

  lemma FewerUnchecked(before: Marks, after: Marks, root: Host)
    requires Forward(before, after) && root in before && before[root] == Unchecked && after[root] != Unchecked
    ensures UncheckedIn(after) < UncheckedIn(before)
  {
    assert root in UncheckedIn(before) && root !in UncheckedIn(after);
  }

  /** Starting the scan of an unchecked host. */
  lemma StartScan(g: Graph<Host>, m: Marks, stack: set<Host>, root: Host)
    requires Closed(g) && m.Keys == g.Keys && MarksMean(g, m, stack)
    requires root in g && m[root] == Unchecked
    ensures MarksMean(g, m[root := TempChecked], stack + {root})
  {
    var m' := m[root := TempChecked];
    forall h | h in g ensures MarkMeans(g, m', stack + {root}, h) {
      assert MarkMeans(g, m, stack, h);
    }
  }

  /** A child that is still being scanned: both ends of the edge lie on a cycle. */
  lemma BackEdgeStep(g: Graph<Host>, m: Marks, stack: set<Host>, root: Host, child: Host)
    requires Closed(g) && m.Keys == g.Keys && MarksMean(g, m, stack)
    requires root in g && root in stack && child in g[root] && CanReach(g, child, root)
    requires HasParent(g, root) && m[child] == TempChecked
    ensures MarksMean(g, m[child := Loopy][root := Loopy], stack) && Forward(m, m[child := Loopy][root := Loopy])
  {
    BackEdge(g, root, child);
    MarkTrouble(g, m, stack, child, Loopy);
    MarkTrouble(g, m[child := Loopy], stack, root, Loopy);
  }

  /** A host that reaches a cycle may be marked so, unless the mark was final already. */
  lemma MarkTrouble(g: Graph<Host>, m: Marks, stack: set<Host>, h: Host, verdict: Mark)
    requires Closed(g) && m.Keys == g.Keys && MarksMean(g, m, stack)
    requires h in g && ReachesCycle(g, h) && m[h] != Unchecked
    requires if verdict == NearLoop then h in stack else verdict == Loopy && HasParent(g, h)
    requires MayBecome(m[h], verdict)
    ensures MarksMean(g, m[h := verdict], stack) && Forward(m, m[h := verdict])
  {
    var m' := m[h := verdict];
    forall k | k in g ensures MarkMeans(g, m', stack, k) {
      assert MarkMeans(g, m, stack, k);
    }
  }

  /** The marks after the status of one child has been taken into account. */
  function AfterChild(m: Marks, root: Host, child: Host): Marks
    requires root in m && child in m
  {
    if m[child] == TempChecked then m[child := Loopy][root := Loopy]
    else if !Trouble(m[child]) then m
    else if m[root] == Loopy then m[child := Loopy]
    else m[root := NearLoop][child := Loopy]
  }

  lemma ChildVerdict(g: Graph<Host>, m: Marks, stack: set<Host>, root: Host, child: Host)
    requires Closed(g) && m.Keys == g.Keys && MarksMean(g, m, stack)
    requires root in g && root in stack && child in g[root] && m[child] != Unchecked
    requires m[child] == TempChecked ==> CanReach(g, child, root) && HasParent(g, root)
    ensures var m' := AfterChild(m, root, child);
      && MarksMean(g, m', stack) && Forward(m, m') && m'[root] != Unchecked
      && if m'[root] == TempChecked then m'[child] == Ok else m'[child] in {Ok, Loopy}
  {
    assert HasParent(g, child);
    if m[child] == TempChecked {
      BackEdgeStep(g, m, stack, root, child);
    } else if Trouble(m[child]) {
      CycleThroughChild(g, root, child);
      if m[root] == Loopy {
        MarkTrouble(g, m, stack, child, Loopy);
      } else {
        var m1 := m[root := NearLoop];
        MarkTrouble(g, m, stack, root, NearLoop);
        MarkTrouble(g, m1, stack, child, Loopy);
        ForwardTrans(m, m1, m1[child := Loopy]);
      }
    }
  }

  /** A host still temporarily checked after the scan of its children has only Ok children, so it is Ok. */
  lemma FinishScan(g: Graph<Host>, start: Marks, m: Marks, stack: set<Host>, root: Host)
    requires Closed(g) && m.Keys == g.Keys && root in g && root !in stack
    requires MarksMean(g, m, stack + {root}) && m[root] != Unchecked && Scanned(m, root, g[root], |g[root]|)
    requires Forward(start, m) && start[root] == Unchecked
    ensures var m' := if m[root] == TempChecked then m[root := Ok] else m;
      MarksMean(g, m', stack) && Forward(start, m')
  {
    if m[root] == TempChecked && ReachesCycle(g, root) {
      CycleNeedsChild(g, root);
      assert false;
    }
    var m' := if m[root] == TempChecked then m[root := Ok] else m;
    forall h | h in g ensures MarkMeans(g, m', stack, h) {
      assert MarkMeans(g, m, stack + {root}, h);
    }
  }

  /** dfs_set_status. */
  method SetStatus(h: Host, mark: Mark, ghost g: Graph<Host>)
    requires GraphOf(g) && h in g
    modifies h`mark
    ensures GraphOf(g) && MarksOf(g) == old(MarksOf(g))[h := mark]
  {
    h.mark := mark;
  }

  /** dfs_get_status. */
  method GetStatus(h: Host, ghost g: Graph<Host>) returns (mark: Mark)
    requires h in g
    ensures mark == MarksOf(g)[h]
  {
    mark := h.mark;
  }

  /** The modified depth-first search: scans root unless it is marked already. */
  method DfsHostPath(root: Host, ghost g: Graph<Host>, ghost stack: set<Host>) returns (status: Mark)
    requires root in g && GraphOf(g) && stack <= g.Keys && root !in stack
    requires MarksMean(g, MarksOf(g), stack)
    requires forall s :: s in stack ==> CanReach(g, s, root)
    requires stack != {} ==> HasParent(g, root)
    modifies g.Keys`mark
    ensures GraphOf(g) && MarksMean(g, MarksOf(g), stack) && Forward(old(MarksOf(g)), MarksOf(g))
    ensures status == MarksOf(g)[root] && status != Unchecked && status != TempChecked
    decreases UncheckedIn(MarksOf(g)), 1
  {
    ghost var start := MarksOf(g);
    status := GetStatus(root, g);
    if status != Unchecked {
      return;
    }
    StartScan(g, start, stack, root);
    SetStatus(root, TempChecked, g);
    ReachRefl(g, root);
    ScanChildren(root, g, stack + {root}, start);
    FinishScan(g, start, MarksOf(g), stack, root);
    status := GetStatus(root, g);
    if status == TempChecked {
      SetStatus(root, Ok, g);
      status := Ok;
    }
  }

  /** The loop over the children of root. */
  method ScanChildren(root: Host, ghost g: Graph<Host>, ghost stack: set<Host>, ghost start: Marks)
    requires GraphOf(g) && root in g && root in stack && stack <= g.Keys
    requires MarksMean(g, MarksOf(g), stack) && MarksOf(g)[root] == TempChecked
    requires Forward(start, MarksOf(g)) && start[root] == Unchecked
    requires forall s :: s in stack ==> CanReach(g, s, root)
    requires stack != {root} ==> HasParent(g, root)
    modifies g.Keys`mark
    ensures GraphOf(g) && MarksMean(g, MarksOf(g), stack)
    ensures Forward(start, MarksOf(g)) && MarksOf(g)[root] != Unchecked
    ensures Scanned(MarksOf(g), root, g[root], |g[root]|)
    decreases UncheckedIn(start), 0
  {
    var i := 0;
    while i < |root.childHosts|
      invariant 0 <= i <= |root.childHosts| && GraphOf(g)
      invariant MarksMean(g, MarksOf(g), stack) && Forward(start, MarksOf(g)) && MarksOf(g)[root] != Unchecked
      invariant Scanned(MarksOf(g), root, g[root], i)
    {
      ghost var m := MarksOf(g);
      FewerUnchecked(start, m, root);
      ScanChild(root, root.childHosts[i], g, stack);
      ScannedForward(m, MarksOf(g), root, g[root], i);
      ForwardTrans(start, m, MarksOf(g));
      i := i + 1;
    }
  }

  /** The body of that loop. */
  method ScanChild(root: Host, child: Host, ghost g: Graph<Host>, ghost stack: set<Host>)
    requires GraphOf(g) && root in g && root in stack && stack <= g.Keys && child in g[root]
    requires MarksMean(g, MarksOf(g), stack)
    requires forall s :: s in stack ==> CanReach(g, s, root)
    requires stack != {root} ==> HasParent(g, root)
    modifies g.Keys`mark
    ensures GraphOf(g) && MarksMean(g, MarksOf(g), stack) && Forward(old(MarksOf(g)), MarksOf(g))
    ensures MarksOf(g)[root] != Unchecked
    ensures if MarksOf(g)[root] == TempChecked then MarksOf(g)[child] == Ok else MarksOf(g)[child] in {Ok, Loopy}
    decreases UncheckedIn(MarksOf(g)), 2
  {
    assert HasParent(g, child);
    ghost var start: Marks := MarksOf(g);
    var childStatus := GetStatus(child, g);
    if childStatus == Unchecked {
      forall s | s in stack ensures CanReach(g, s, child) {
        EdgeIsWalk(g, root, child);
        ReachTrans(g, s, root, child);
      }
      childStatus := DfsHostPath(child, g, stack);
    }
    ghost var m: Marks := MarksOf(g);
    ChildVerdict(g, m, stack, root, child);
    ForwardTrans(start, m, AfterChild(m, root, child));
    TakeVerdict(root, child, childStatus, g);
  }

  /** How the status of a child changes the marks of both. */
  method TakeVerdict(root: Host, child: Host, childStatus: Mark, ghost g: Graph<Host>)
    requires GraphOf(g) && root in g && child in g && childStatus == MarksOf(g)[child]
    modifies root`mark, child`mark
    ensures GraphOf(g) && MarksOf(g) == AfterChild(old(MarksOf(g)), root, child)
  {
    if childStatus == TempChecked {
      SetStatus(child, Loopy, g);
      SetStatus(root, Loopy, g);
    }
    if childStatus == NearLoop || childStatus == Loopy {
      var rootStatus := GetStatus(root, g);
      if rootStatus != Loopy {
        SetStatus(root, NearLoop, g);
      }
      SetStatus(child, Loopy, g);
    }
  }

  /** The exact meaning of the final marks. */
  ghost predicate ExactMarks(g: Graph<Host>, m: Marks)
    requires Closed(g) && m.Keys == g.Keys
  {
    forall h :: h in g ==> m[h] == ExactMark(g, h)
  }

  ghost function ExactMark(g: Graph<Host>, h: Host): Mark
    requires Closed(g) && h in g
  {
    if !ReachesCycle(g, h) then Ok else if HasParent(g, h) then Loopy else NearLoop
  }

  lemma MarksAreExact(g: Graph<Host>, m: Marks)
    requires Closed(g) && m.Keys == g.Keys && MarksMean(g, m, {}) && UncheckedIn(m) == {}
    ensures ExactMarks(g, m)
  {
    forall h | h in g ensures m[h] == ExactMark(g, h) {
      assert h !in UncheckedIn(m);
      if ReachesCycle(g, h) && HasParent(g, h) {
        var p :| p in g && h in g[p];
        assert p !in UncheckedIn(m);
        assert Settled(m, g[p]);
      }
    }
  }

  /** Once the search that met a cycle host is over, that host is marked Loopy. */
  lemma CycleHostIsLoopy(g: Graph<Host>, m: Marks, h: Host)
    requires Closed(g) && m.Keys == g.Keys && MarksMean(g, m, {})
    requires h in g && m[h] != Unchecked && OnCycle(g, h)
    ensures m[h] == Loopy
  {
    var n: nat :| n > 0 && Walk(g, h, h, n);
    var p := CyclePredecessor(g, h, h, n);
    var checked := g.Keys - UncheckedIn(m);
    forall x, c | x in g && x in checked && c in g[x] ensures c in checked {
      assert Settled(m, g[x]);
    }
    ClosedSetContainsReach(g, checked, h, p);
    assert Settled(m, g[p]);
    ReachRefl(g, h);
    assert ReachesCycle(g, h);
  }

  /** The first k hosts of the list have been searched and every cycle host among them raised the error. */
  ghost predicate Searched(g: Graph<Host>, m: Marks, hostList: seq<Host>, k: int, errors: bool)
    requires Closed(g) && m.Keys == g.Keys && InList(hostList, g) && 0 <= k <= |hostList|
  {
    forall j :: 0 <= j < k ==> m[hostList[j]] != Unchecked && (OnCycle(g, hostList[j]) ==> errors)
  }

  lemma SearchedStep(g: Graph<Host>, before: Marks, after: Marks, hostList: seq<Host>, k: nat, errors: bool)
    requires Closed(g) && before.Keys == after.Keys == g.Keys && InList(hostList, g) && k < |hostList|
    requires MarksMean(g, after, {}) && Forward(before, after) && after[hostList[k]] != Unchecked
    requires Searched(g, before, hostList, k, errors)
    ensures Searched(g, after, hostList, k + 1, errors || after[hostList[k]] == Loopy)
    ensures after[hostList[k]] == Loopy ==> HasCycle(g)
  {
    forall j | 0 <= j < k ensures after[hostList[j]] != Unchecked {
      assert MayBecome(before[hostList[j]], after[hostList[j]]);
    }
    if OnCycle(g, hostList[k]) {
      CycleHostIsLoopy(g, after, hostList[k]);
    }
    assert MarkMeans(g, after, {}, hostList[k]);
  }

  /** The searches from every host of the list, in list order. */
  method MarkHosts(hostList: seq<Host>, ghost g: Graph<Host>) returns (errors: bool)
    requires GraphOf(g) && InList(hostList, g)
    modifies g.Keys`mark
    ensures GraphOf(g) && ExactMarks(g, MarksOf(g))
    ensures errors <==> HasCycle(g)
  {
    ResetStatus(hostList, g);
    errors := false;
    var i := 0;
    while i < |hostList|
      invariant 0 <= i <= |hostList| && GraphOf(g) && MarksMean(g, MarksOf(g), {})
      invariant Searched(g, MarksOf(g), hostList, i, errors)
      invariant errors ==> HasCycle(g)
    {
      ghost var m := MarksOf(g);
      var status := DfsHostPath(hostList[i], g, {});
      SearchedStep(g, m, MarksOf(g), hostList, i, errors);
      if status == Loopy {
        errors := true;
      }
      i := i + 1;
    }
    AllSearched(g, MarksOf(g), hostList, errors);
  }

  lemma AllSearched(g: Graph<Host>, m: Marks, hostList: seq<Host>, errors: bool)
    requires Closed(g) && m.Keys == g.Keys && InList(hostList, g)
    requires MarksMean(g, m, {}) && Searched(g, m, hostList, |hostList|, errors)
    ensures ExactMarks(g, m) && (HasCycle(g) ==> errors)
  {
    forall h | h in g ensures m[h] != Unchecked && (OnCycle(g, h) ==> errors) {
      var j :| 0 <= j < |hostList| && hostList[j] == h;
    }
    MarksAreExact(g, m);
  }

  /** Clears every mark of the list. */
  method ResetStatus(hostList: seq<Host>, ghost g: Graph<Host>)
    requires GraphOf(g) && InList(hostList, g)
    modifies g.Keys`mark
    ensures GraphOf(g) && UncheckedIn(MarksOf(g)) == g.Keys
    ensures MarksMean(g, MarksOf(g), {})
  {
    var i := 0;
    while i < |hostList|
      invariant 0 <= i <= |hostList| && GraphOf(g)
      invariant forall j :: 0 <= j < i ==> hostList[j].mark == Unchecked
    {
      SetStatus(hostList[i], Unchecked, g);
      i := i + 1;
    }
    assert forall h :: h in g ==> h.mark == Unchecked;
  }

  /** The hosts the check names, in list order: exactly those that reach a cycle and have a parent. */
  ghost function Named(g: Graph<Host>, hostList: seq<Host>): seq<Host>
    requires Closed(g) && forall h :: h in hostList ==> h in g
  {
    if hostList == [] then [] else
    var n := |hostList| - 1;
    Named(g, hostList[..n]) +
    if ReachesCycle(g, hostList[n]) && HasParent(g, hostList[n]) then [hostList[n]] else []
  }

  /** The host part of pre_flight_circular_check: it fails exactly on a cyclic graph, whatever the order
      of the host list, names the hosts above and leaves every mark cleared. */
  method PreFlightCircularCheck(hostList: seq<Host>, verifyCircularPaths: bool, ghost g: Graph<Host>)
    returns (errors: bool, named: seq<Host>)
    requires GraphOf(g) && InList(hostList, g)
    requires forall i, j :: 0 <= i < j < |hostList| ==> hostList[i] != hostList[j]
    modifies g.Keys`mark
    ensures !verifyCircularPaths ==> !errors && named == [] && MarksOf(g) == old(MarksOf(g))
    ensures verifyCircularPaths ==> errors == HasCycle(g) && named == Named(g, hostList)
    ensures verifyCircularPaths ==> UncheckedIn(MarksOf(g)) == g.Keys
  {
    errors, named := false, [];
    if !verifyCircularPaths {
      return;
    }
    errors := MarkHosts(hostList, g);
    named := ReportAndClear(hostList, g);
  }

  /** The loop that logs the hosts marked Loopy and clears the marks. */
  method ReportAndClear(hostList: seq<Host>, ghost g: Graph<Host>) returns (named: seq<Host>)
    requires GraphOf(g) && InList(hostList, g) && ExactMarks(g, MarksOf(g))
    requires forall i, j :: 0 <= i < j < |hostList| ==> hostList[i] != hostList[j]
    modifies g.Keys`mark
    ensures GraphOf(g) && named == Named(g, hostList) && UncheckedIn(MarksOf(g)) == g.Keys
  {
    hide Named, ExactMark, ReachesCycle, HasParent;
    named := [];
    NamedNone(g, hostList);
    var i := 0;
    while i < |hostList|
      invariant 0 <= i <= |hostList| && GraphOf(g)
      invariant named == Named(g, hostList[..i])
      invariant forall j :: 0 <= j < i ==> hostList[j].mark == Unchecked
      invariant forall j :: i <= j < |hostList| ==> hostList[j].mark == ExactMark(g, hostList[j])
    {
      NamedStep(g, hostList, i);
      var h := hostList[i];
      if h.mark == Loopy {
        named := named + [h];
      }
      h.mark := Unchecked;
      i := i + 1;
    }
    assert hostList[..i] == hostList;
    assert forall h :: h in g ==> h.mark == Unchecked;
  }

  lemma NamedNone(g: Graph<Host>, hostList: seq<Host>)
    requires Closed(g) && InList(hostList, g)
    ensures Named(g, hostList[..0]) == []
  {
  }

  lemma NamedStep(g: Graph<Host>, hostList: seq<Host>, i: nat)
    requires Closed(g) && InList(hostList, g) && i < |hostList|
    ensures Named(g, hostList[..i + 1]) ==
            Named(g, hostList[..i]) + if ExactMark(g, hostList[i]) == Loopy then [hostList[i]] else []
  {
    assert hostList[..i + 1][..i] == hostList[..i];
  }

  /** r has child x, x has child c, and c is its own child. */
  ghost function TailOfLoop(r: Host, x: Host, c: Host): (g: Graph<Host>)
    requires r != x && x != c && r != c
    ensures Closed(g)
  {
    map[r := [x], x := [c], c := [c]]
  }

  /** A Loopy verdict does not say that the host is on a cycle: x has a parent and leads into the loop of c. */
  lemma LoopyOffCycle(r: Host, x: Host, c: Host)
    requires r != x && x != c && r != c
    ensures ExactMark(TailOfLoop(r, x, c), x) == Loopy && !OnCycle(TailOfLoop(r, x, c), x)
  {
    var g: Graph<Host> := TailOfLoop(r, x, c);
    EdgeIsWalk(g, c, c);
    EdgeIsWalk(g, x, c);
    assert OnCycle(g, c) && ReachesCycle(g, x);
    assert r in g && x in g[r] && HasParent(g, x);
    if OnCycle(g, x) {
      var n: nat :| n > 0 && Walk(g, x, x, n);
      ClosedSetContainsWalk(g, {c}, c, x, n - 1);
      assert false;
    }
  }
}
