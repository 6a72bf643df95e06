/** Flap detection: the ring buffer of recorded states, the weighted percentage of state changes and the
    hysteresis that starts and stops flapping (src/flapping.cc). */
module Flapping {
  import opened Options

  /** Also the state called UP for hosts. */
  const OK := 0

  // ----- the percentage -----

  /** The weight of a change between the states recorded at x - 1 and x: the older, the lighter. */
  function Weight(x: int, n: int): real
    requires n >= 3
  {
    (x - 1) as real * (1.25 - 0.75) / (n - 2) as real + 0.75
  }

  /** The weighted changes among the first k of n recorded states, oldest first. */
  function CurvedChanges(history: seq<int>, k: nat): real
    requires 3 <= |history| && k <= |history|
  {
    if k < 2 then 0.0
    else CurvedChanges(history, k - 1) +
         if history[k - 1] != history[k - 2] then Weight(k - 1, |history|) else 0.0
  }

  function PercentStateChange(history: seq<int>): real
    requires 3 <= |history|
  {
    CurvedChanges(history, |history|) * 100.0 / (|history| - 1) as real
  }

  predicate EveryPairDiffers(history: seq<int>) {
    forall i :: 1 <= i < |history| ==> history[i] != history[i - 1]
  }

  predicate Constant(history: seq<int>) {
    forall i :: 1 <= i < |history| ==> history[i] == history[i - 1]
  }

  /** Four times n - 2 times the weighted changes, which is an integer. */
  function ScaledChanges(history: seq<int>, k: nat): nat
    requires 3 <= |history| && k <= |history|
  {
    if k < 2 then 0
    else ScaledChanges(history, k - 1) +
         if history[k - 1] != history[k - 2] then 2 * (k - 2) + 3 * (|history| - 2) else 0
  }

  lemma {:induction false} ScaledIsScaled(history: seq<int>, k: nat)
    requires 3 <= |history| && k <= |history|
    ensures CurvedChanges(history, k) * (4 * (|history| - 2)) as real == ScaledChanges(history, k) as real
  {
    hide Weight;
    if k >= 2 {
      var w := if history[k - 1] != history[k - 2] then Weight(k - 1, |history|) else 0.0;
      ScaledIsScaled(history, k - 1);
      WeightScaled(k - 1, |history|);
      Distribute(CurvedChanges(history, k - 1), w, (4 * (|history| - 2)) as real);
    }
  }

  lemma Distribute(a: real, b: real, d: real)
    ensures (a + b) * d == a * d + b * d
  {
  }

  /** The oldest change weighs three quarters, the newest five quarters, and the weights between rise by equal steps. */
  lemma WeightsRise(x: int, n: int)
    requires n >= 3
    ensures Weight(1, n) == 0.75 && Weight(n - 1, n) == 1.25
    ensures (Weight(x + 1, n) - Weight(x, n)) * (n - 2) as real == 0.5
  {
    var d := (n - 2) as real;
    assert d * 0.5 / d == 0.5;
    assert ((x + 1 - 1) as real * 0.5 / d) * d == x as real * 0.5;
    assert ((x - 1) as real * 0.5 / d) * d == (x - 1) as real * 0.5;
    Distribute(Weight(x + 1, n), -Weight(x, n), d);
  }

  lemma WeightScaled(x: int, n: int)
    requires n >= 3
    ensures Weight(x, n) * (4 * (n - 2)) as real == (2 * (x - 1) + 3 * (n - 2)) as real
  {
    var d := (n - 2) as real;
    assert ((x - 1) as real * 0.5 / d) * d == (x - 1) as real * 0.5;
  }

  /** The scaled weight of changes between all of the first k of n states. */
  function Most(k: nat, n: nat): int {
    (k - 1) * (k - 2) + 3 * (n - 2) * (k - 1)
  }

  /** One more state adds the weight of one change. */
  lemma MostGrows(k: nat, n: nat)
    requires k >= 2
    ensures Most(1, n) == 0 && Most(k, n) == Most(k - 1, n) + 2 * (k - 2) + 3 * (n - 2)
  {
    assert (k - 1) * (k - 2) == (k - 2) * (k - 3) + 2 * (k - 2);
    assert 3 * (n - 2) * (k - 1) == 3 * (n - 2) * (k - 2) + 3 * (n - 2);
  }

  /** What the first k states can weigh at most, and when. */
  lemma {:induction false} ScaledBounds(history: seq<int>, k: nat)
    requires 3 <= |history| && 1 <= k <= |history|
    ensures ScaledChanges(history, k) <= Most(k, |history|)
    ensures ScaledChanges(history, k) == Most(k, |history|) <==> EveryPairDiffers(history[..k])
    ensures ScaledChanges(history, k) == 0 <==> Constant(history[..k])
  {
    if k >= 2 {
      hide Most;
      ScaledBounds(history, k - 1);
      MostGrows(k, |history|);
      PairsOfPrefix(history, k);
    }
  }

  lemma PairsOfPrefix(history: seq<int>, k: nat)
    requires 2 <= k <= |history|
    ensures EveryPairDiffers(history[..k]) <==> EveryPairDiffers(history[..k - 1]) && history[k - 1] != history[k - 2]
    ensures Constant(history[..k]) <==> Constant(history[..k - 1]) && history[k - 1] == history[k - 2]
  {
    assert history[..k - 1] == history[..k][..k - 1];
  }

  /** The percentage lies between 0 and 100; it is 100 exactly when every recorded state differs from the one
      before, and 0 exactly when all are the same. */
  lemma PercentageBounds(history: seq<int>)
    requires 3 <= |history|
    ensures 0.0 <= PercentStateChange(history) <= 100.0
    ensures PercentStateChange(history) == 100.0 <==> EveryPairDiffers(history)
    ensures PercentStateChange(history) == 0.0 <==> Constant(history)
  {
    hide CurvedChanges, ScaledChanges, Most;
    var n := |history|;
    ScaledIsScaled(history, n);
    ScaledBounds(history, n);
    assert history[..n] == history;
    ScaledPercentage(CurvedChanges(history, n), ScaledChanges(history, n), n);
  }

  lemma ScaledPercentage(c: real, scaled: nat, n: nat)
    requires n >= 3 && c * (4 * (n - 2)) as real == scaled as real
    requires scaled <= Most(n, n)
    ensures var p := c * 100.0 / (n - 1) as real;
      && 0.0 <= p <= 100.0
      && (p == 100.0 <==> scaled == Most(n, n))
      && (p == 0.0 <==> scaled == 0)
  {
    var full := 4 * (n - 2) * (n - 1);
    assert Most(n, n) == full;
    Share(c, (n - 1) as real, (4 * (n - 2)) as real);
    assert full as real == (4 * (n - 2)) as real * (n - 1) as real;
  }

  /** c is to m as c * d is to m * d. */
  lemma Share(c: real, m: real, d: real)
    requires m > 0.0 && d > 0.0
    ensures 0.0 <= c * 100.0 / m <==> 0.0 <= c * d
    ensures c * 100.0 / m <= 100.0 <==> c * d <= d * m
    ensures c * 100.0 / m == 100.0 <==> c * d == d * m
    ensures c * 100.0 / m == 0.0 <==> c * d == 0.0
  {
    var p := c * 100.0 / m;
    assert p * m == c * 100.0;
    Scales(0.0, p, m);
    Scales(p, 100.0, m);
    Scales(0.0, c, d);
    Scales(c, m, d);
  }

  /** Multiplying both sides by a positive number keeps their order. */
  lemma Scales(x: real, y: real, z: real)
    requires z > 0.0
    ensures x <= y <==> x * z <= y * z
    ensures x == y <==> x * z == y * z
  {
    Sign(y - x, z);
    Distribute(y, -x, z);
  }

  lemma Sign(x: real, y: real)
    requires y > 0.0
    ensures x > 0.0 <==> x * y > 0.0
    ensures x < 0.0 <==> x * y < 0.0
  {
  }

  // ----- the verdict -----

  /** Between the thresholds the verdict stands; at or below the low one flapping is over, at or above the high
      one it has begun. */
  function Verdict(isFlapping: bool, percent: real, low: real, high: real): bool {
    if low < percent < high then isFlapping else percent > low
  }

  /** Flapping goes on while the percentage is above the low threshold, and begins where it also is at or above the high
      one. */
  lemma VerdictMeans(isFlapping: bool, percent: real, low: real, high: real)
    ensures Verdict(isFlapping, percent, low, high) <==> percent > low && (isFlapping || percent >= high)
  {
  }

  function Push(history: seq<int>, state: int): seq<int>
    requires history != []
  {
    history[1..] + [state]
  }

  function PushMany(history: seq<int>, state: int, count: nat): (after: seq<int>)
    requires history != []
    ensures |after| == |history|
  {
    if count == 0 then history else Push(PushMany(history, state, count - 1), state)
  }

  lemma {:induction false} PushManyFillsEnd(history: seq<int>, state: int, count: nat)
    requires history != []
    ensures forall i :: 0 <= i < |history| && i >= |history| - count ==> PushMany(history, state, count)[i] == state
  {
    if count > 0 {
      PushManyFillsEnd(history, state, count - 1);
    }
  }

  /** The history after a number of checks, each of which records a state or, as the settings have it, none. */
  function HistoryAfter(history: seq<int>, checks: seq<Option<int>>): (after: seq<int>)
    requires history != []
    ensures |after| == |history|
  {
    if checks == [] then history else
    var before := HistoryAfter(history, checks[..|checks| - 1]);
    match checks[|checks| - 1]
    case None => before
    case Some(state) => Push(before, state)
  }

  /** The percentage found by the k-th check. */
  function PercentAt(history: seq<int>, checks: seq<Option<int>>, k: nat): real
    requires 3 <= |history| && k < |checks|
  {
    PercentStateChange(HistoryAfter(history, checks[..k + 1]))
  }

  /** The flapping indicator after a number of checks with detection enabled. */
  function FlappingAfter(history: seq<int>, isFlapping: bool, checks: seq<Option<int>>, low: real, high: real): bool
    requires 3 <= |history|
  {
    if checks == [] then isFlapping
    else
      var n := |checks| - 1;
      Verdict(FlappingAfter(history, isFlapping, checks[..n], low, high), PercentAt(history, checks, n), low, high)
  }

  predicate Undecided(history: seq<int>, checks: seq<Option<int>>, low: real, high: real, k: nat)
    requires 3 <= |history| && k < |checks|
  {
    low < PercentAt(history, checks, k) < high
  }

  /** The k-th check is the last one whose percentage lies outside the open band. */
  ghost predicate LastDecisive(history: seq<int>, checks: seq<Option<int>>, low: real, high: real, k: nat)
    requires 3 <= |history| && k < |checks|
  {
    && !Undecided(history, checks, low, high, k)
    && forall j :: k < j < |checks| ==> Undecided(history, checks, low, high, j)
  }

  lemma EarlierPercents(history: seq<int>, checks: seq<Option<int>>, low: real, high: real)
    requires 3 <= |history| && checks != []
    ensures var earlier := checks[..|checks| - 1];
      forall j :: 0 <= j < |earlier| ==>
        && PercentAt(history, earlier, j) == PercentAt(history, checks, j)
        && Undecided(history, earlier, low, high, j) == Undecided(history, checks, low, high, j)
  {
    hide PercentStateChange, HistoryAfter;
    var earlier := checks[..|checks| - 1];
    forall j | 0 <= j < |earlier|
      ensures PercentAt(history, earlier, j) == PercentAt(history, checks, j)
           && Undecided(history, earlier, low, high, j) == Undecided(history, checks, low, high, j)
    {
      assert earlier[..j + 1] == checks[..j + 1];
    }
  }

  /** Over any run of checks, whatever states they record, the indicator is the verdict of the last check whose
      percentage lay outside the open band, ... */
  lemma {:induction false} LastDecisivePercentageRules(history: seq<int>, isFlapping: bool, checks: seq<Option<int>>,
                                                       low: real, high: real, k: nat)
    requires 3 <= |history| && low < high && k < |checks| && LastDecisive(history, checks, low, high, k)
    ensures FlappingAfter(history, isFlapping, checks, low, high) == (PercentAt(history, checks, k) >= high)
  {
    hide PercentAt;
    var n := |checks| - 1;
    EarlierPercents(history, checks, low, high);
    if k < n {
      assert Undecided(history, checks, low, high, n);
      LastDecisivePercentageRules(history, isFlapping, checks[..n], low, high, k);
    }
  }

  /** ... and as it was if there was none. */
  lemma {:induction false} UndecidedChangesNothing(history: seq<int>, isFlapping: bool, checks: seq<Option<int>>,
                                                   low: real, high: real)
    requires 3 <= |history|
    requires forall j :: 0 <= j < |checks| ==> Undecided(history, checks, low, high, j)
    ensures FlappingAfter(history, isFlapping, checks, low, high) == isFlapping
  {
    hide PercentAt;
    if checks != [] {
      var n := |checks| - 1;
      EarlierPercents(history, checks, low, high);
      assert Undecided(history, checks, low, high, n);
      UndecidedChangesNothing(history, isFlapping, checks[..n], low, high);
    }
  }

  /** As many equal recordings as the history is long end flapping, whatever was recorded before. */
  lemma SteadyStateEndsFlapping(history: seq<int>, state: int, isFlapping: bool, low: real, high: real)
    requires 3 <= |history| && 0.0 <= low
    ensures var percent := PercentStateChange(PushMany(history, state, |history|));
      percent == 0.0 && !Verdict(isFlapping, percent, low, high)
  {
    PushManyFillsEnd(history, state, |history|);
    PercentageBounds(PushMany(history, state, |history|));
  }

  // ----- hosts and services -----

  /** The comments of the engine; identifiers are never zero. */
  class CommentStore {
    var ids: set<nat>
    var nextId: nat

    ghost predicate Valid()
      reads this
    {
      nextId > 0 && forall id :: id in ids ==> 0 < id < nextId
    }

    constructor ()
      ensures Valid() && ids == {}
    {
      ids, nextId := {}, 1;
    }

    method AddComment() returns (id: nat)
      requires Valid()
      modifies this
      ensures Valid() && id != 0 && id !in old(ids) && ids == old(ids) + {id}
    {
      id := nextId;
      ids, nextId := ids + {id}, nextId + 1;
    }

    method DeleteComment(id: nat)
      requires Valid()
      modifies this
      ensures Valid() && ids == old(ids) - {id}
    {
      ids := ids - {id};
    }
  }

  /** The notification attempts flap detection makes. */
  datatype Attempt = FlappingStart | FlappingStop | FlappingDisabled | Normal

  datatype Config = Config(enableFlapDetection: bool, lowThreshold: real, highThreshold: real)

  class FlapObject {
    const flapDetectionOn: set<int>
    const lowFlapThreshold: real
    const highFlapThreshold: real
    var flapDetectionEnabled: bool
    var currentState: int
    var soft: bool
    var currentNotificationNumber: int
    const stateHistory: array<int>
    var stateHistoryIndex: nat
    var lastStateHistoryUpdate: int
    var percentStateChange: real
    var isFlapping: bool
    var flappingCommentId: nat
    var checkFlappingRecoveryNotification: bool

    constructor (entries: nat, flapDetectionOn: set<int>, low: real, high: real)
      requires entries >= 3
      ensures Valid() && fresh(stateHistory) && stateHistory.Length == entries && !isFlapping
      ensures this.flapDetectionOn == flapDetectionOn && lowFlapThreshold == low && highFlapThreshold == high
    {
      stateHistory := new int[entries](_ => OK);
      stateHistoryIndex, lastStateHistoryUpdate, percentStateChange := 0, 0, 0.0;
      isFlapping, flappingCommentId, checkFlappingRecoveryNotification := false, 0, false;
      currentState, soft, currentNotificationNumber, flapDetectionEnabled := OK, false, 0, true;
      this.flapDetectionOn, lowFlapThreshold, highFlapThreshold := flapDetectionOn, low, high;
    }

    /** A flapping object has its comment, and only a flapping one. */
    ghost predicate Valid()
      reads this
    {
      stateHistory.Length >= 3 && stateHistoryIndex < stateHistory.Length && (isFlapping <==> flappingCommentId != 0)
    }

    /** The recorded states, oldest first. */
    ghost function Recent(): (h: seq<int>)
      requires Valid()
      reads this, stateHistory
      ensures |h| == stateHistory.Length
    {
      stateHistory[stateHistoryIndex..] + stateHistory[..stateHistoryIndex]
    }

    function LowThreshold(config: Config): real {
      if lowFlapThreshold <= 0.0 then config.lowThreshold else lowFlapThreshold
    }

    function HighThreshold(config: Config): real {
      if highFlapThreshold <= 0.0 then config.highThreshold else highFlapThreshold
    }

    /** With detection enabled everywhere flapping begins at the high threshold and ends at the low one; thresholds of
        the object take precedence over those of the program if they are positive. */
    predicate FollowsThresholds(config: Config, before: bool)
      reads this
    {
      if !config.enableFlapDetection || !flapDetectionEnabled then isFlapping == before else
      var low := if lowFlapThreshold > 0.0 then lowFlapThreshold else config.lowThreshold;
      var high := if highFlapThreshold > 0.0 then highFlapThreshold else config.highThreshold;
      isFlapping == Verdict(before, percentStateChange, low, high)
    }

    method RecordState()
      requires Valid()
      modifies this`stateHistoryIndex, stateHistory
      ensures Valid() && Recent() == Push(old(Recent()), currentState) == old(Recent())[1..] + [currentState]
    {
      stateHistory[stateHistoryIndex] := currentState;
      stateHistoryIndex := stateHistoryIndex + 1;
      if stateHistoryIndex >= stateHistory.Length {
        stateHistoryIndex := 0;
      }
    }

    /** The sliding scan from the oldest entry round the ring. */
    method ScanHistory() returns (percent: real)
      requires Valid()
      ensures percent == PercentStateChange(Recent())
    {
      var n := stateHistory.Length;
      var curvedChanges := 0.0;
      var lastStateHistoryValue := OK;
      var x, y := 0, stateHistoryIndex;
      while x < n
        invariant 0 <= x <= n
        invariant 0 <= y < n
        invariant y == if stateHistoryIndex + x < n then stateHistoryIndex + x else stateHistoryIndex + x - n
        invariant x > 0 ==> lastStateHistoryValue == Recent()[x - 1]
        invariant curvedChanges == CurvedChanges(Recent(), x)
      {
        assert stateHistory[y] == Recent()[x];
        if x == 0 {
          lastStateHistoryValue := stateHistory[y];
        } else {
          if lastStateHistoryValue != stateHistory[y] {
            curvedChanges := curvedChanges + Weight(x, n);
          }
          lastStateHistoryValue := stateHistory[y];
        }
        y := y + 1;
        if y >= n {
          y := 0;
        }
        x := x + 1;
      }
      percent := curvedChanges * 100.0 / (n - 1) as real;
    }

    /** What a started, stopped or disabled flapping leaves behind. */
    twostate predicate FlapStateIs(flapping: bool, checkRecovery: bool)
      reads this
    {
      && isFlapping == flapping && checkFlappingRecoveryNotification == checkRecovery
      && unchanged(`flapDetectionEnabled, `currentState, `soft, `currentNotificationNumber, `stateHistoryIndex,
                   `lastStateHistoryUpdate, `percentStateChange)
    }

    /** Comment, recovery flag and notification attempts that go with a change of the flapping indicator. */
    twostate predicate FollowsVerdict(comments: CommentStore, allowFlapstart: bool, attempts: seq<Attempt>)
      reads this, comments
    {
      if isFlapping == old(isFlapping) then
        && flappingCommentId == old(flappingCommentId) && comments.ids == old(comments.ids) && attempts == []
        && checkFlappingRecoveryNotification == old(checkFlappingRecoveryNotification)
      else if isFlapping then
        && comments.ids == old(comments.ids) + {flappingCommentId} && flappingCommentId !in old(comments.ids)
        && checkFlappingRecoveryNotification == (currentState != OK && currentNotificationNumber > 0)
        && attempts == if allowFlapstart then [FlappingStart] else []
      else
        && comments.ids == old(comments.ids) - {old(flappingCommentId)} && !checkFlappingRecoveryNotification
        && attempts == [FlappingStop] +
             if old(checkFlappingRecoveryNotification) && currentState == OK then [Normal] else []
    }

    method SetFlap(comments: CommentStore, allowFlapstartNotification: bool) returns (attempts: seq<Attempt>)
      requires Valid() && comments.Valid() && !isFlapping
      modifies this, comments
      ensures Valid() && comments.Valid()
      ensures FlapStateIs(true, currentState != OK && currentNotificationNumber > 0)
      ensures comments.ids == old(comments.ids) + {flappingCommentId} && flappingCommentId !in old(comments.ids)
      ensures attempts == if allowFlapstartNotification then [FlappingStart] else []
    {
      flappingCommentId := comments.AddComment();
      isFlapping := true;
      if currentState != OK && currentNotificationNumber > 0 {
        checkFlappingRecoveryNotification := true;
      } else {
        checkFlappingRecoveryNotification := false;
      }
      attempts := [];
      if allowFlapstartNotification {
        attempts := [FlappingStart];
      }
    }

    /** Removes the flapping indicator, its comment and the recovery flag. */
    method EndFlap(comments: CommentStore, notice: Attempt) returns (attempts: seq<Attempt>)
      requires Valid() && comments.Valid() && isFlapping
      modifies this, comments
      ensures Valid() && comments.Valid()
      ensures FlapStateIs(false, false) && comments.ids == old(comments.ids) - {old(flappingCommentId)}
      ensures attempts == [notice] +
        if old(checkFlappingRecoveryNotification) && currentState == OK then [Normal] else []
    {
      if flappingCommentId != 0 {
        comments.DeleteComment(flappingCommentId);
      }
      flappingCommentId := 0;
      isFlapping := false;
      attempts := [notice];
      if checkFlappingRecoveryNotification && currentState == OK {
        attempts := attempts + [Normal];
      }
      checkFlappingRecoveryNotification := false;
    }

    /** Scans the history and, with detection enabled everywhere, starts or stops flapping. */
    method UpdateFlapping(config: Config, comments: CommentStore, allowFlapstartNotification: bool)
      returns (attempts: seq<Attempt>)
      requires Valid() && comments.Valid()
      modifies this, comments
      ensures Valid() && comments.Valid() && Recent() == old(Recent())
      ensures percentStateChange == PercentStateChange(Recent())
      ensures FollowsThresholds(config, old(isFlapping))
      ensures FollowsVerdict(comments, allowFlapstartNotification, attempts)
      ensures unchanged(`flapDetectionEnabled, `currentState, `soft, `currentNotificationNumber, `stateHistoryIndex,
                        `lastStateHistoryUpdate)
    {
      var lowThreshold := LowThreshold(config);
      var highThreshold := HighThreshold(config);
      var percent := ScanHistory();
      percentStateChange := percent;
      attempts := [];
      if !config.enableFlapDetection {
        return;
      }
      if !flapDetectionEnabled {
        return;
      }
      var flapping := false;
      if percent > lowThreshold && percent < highThreshold {
        return;
      } else if percent <= lowThreshold {
        flapping := false;
      } else if percent >= highThreshold {
        flapping := true;
      }
      if flapping && !isFlapping {
        attempts := SetFlap(comments, allowFlapstartNotification);
      } else if !flapping && isFlapping {
        attempts := EndFlap(comments, FlappingStop);
      }
    }

    /** check_for_service_flapping: soft problem states are neither recorded nor scanned. */
    method CheckForServiceFlapping(config: Config, comments: CommentStore, update: bool,
                                   allowFlapstartNotification: bool)
      returns (attempts: seq<Attempt>)
      requires Valid() && comments.Valid()
      modifies this, stateHistory, comments
      ensures Valid() && comments.Valid()
      ensures old(soft) && old(currentState) != OK ==>
        unchanged(this) && unchanged(stateHistory) && unchanged(comments) && attempts == []
      ensures !(old(soft) && old(currentState) != OK) ==>
        && Recent() ==
             (if update && currentState in flapDetectionOn then Push(old(Recent()), currentState) else old(Recent()))
        && percentStateChange == PercentStateChange(Recent())
        && FollowsThresholds(config, old(isFlapping))
        && FollowsVerdict(comments, allowFlapstartNotification, attempts)
      ensures currentState == old(currentState) && flapDetectionEnabled == old(flapDetectionEnabled)
    {
      if soft && currentState != OK {
        return [];
      }
      if update && currentState in flapDetectionOn {
        RecordState();
      }
      attempts := UpdateFlapping(config, comments, allowFlapstartNotification);
    }

    /** check_for_host_flapping: without an actual check a state is recorded only after the waiting time, or when
        the clock was set back (the elapsed time is an unsigned number). */
    method CheckForHostFlapping(config: Config, comments: CommentStore, update: bool, actualCheck: bool,
                                allowFlapstartNotification: bool, currentTime: int, waitThreshold: int)
      returns (attempts: seq<Attempt>)
      requires Valid() && comments.Valid()
      modifies this, stateHistory, comments
      ensures Valid() && comments.Valid()
      ensures var records := update && currentState in flapDetectionOn
          && (actualCheck || !(0 <= currentTime - old(lastStateHistoryUpdate) < waitThreshold));
        && Recent() == (if records then Push(old(Recent()), currentState) else old(Recent()))
        && lastStateHistoryUpdate == (if records then currentTime else old(lastStateHistoryUpdate))
      ensures percentStateChange == PercentStateChange(Recent())
      ensures FollowsThresholds(config, old(isFlapping))
      ensures FollowsVerdict(comments, allowFlapstartNotification, attempts)
      ensures currentState == old(currentState) && flapDetectionEnabled == old(flapDetectionEnabled)
    {
      var updateHistory := update && currentState in flapDetectionOn;
      if updateHistory && !actualCheck && 0 <= currentTime - lastStateHistoryUpdate < waitThreshold {
        updateHistory := false;
      }
      if updateHistory {
        lastStateHistoryUpdate := currentTime;
        RecordState();
      }
      attempts := UpdateFlapping(config, comments, allowFlapstartNotification);
    }

    /** handle_host_flap_detection_disabled and its twin for services. */
    method HandleFlapDetectionDisabled(comments: CommentStore) returns (attempts: seq<Attempt>)
      requires Valid() && comments.Valid()
      modifies this, comments
      ensures Valid() && comments.Valid() && !isFlapping && flapDetectionEnabled == old(flapDetectionEnabled)
      ensures Recent() == old(Recent())
      ensures if old(isFlapping) then
          comments.ids == old(comments.ids) - {old(flappingCommentId)} && !checkFlappingRecoveryNotification
          && attempts == [FlappingDisabled] +
               (if old(checkFlappingRecoveryNotification) && currentState == OK then [Normal] else [])
        else unchanged(comments) && attempts == []
    {
      attempts := [];
      if isFlapping {
        attempts := EndFlap(comments, FlappingDisabled);
      }
    }

    method DisableFlapDetection(comments: CommentStore) returns (attempts: seq<Attempt>)
      requires Valid() && comments.Valid()
      modifies this, comments
      ensures Valid() && comments.Valid() && !flapDetectionEnabled && Recent() == old(Recent())
      ensures old(flapDetectionEnabled) ==> !isFlapping
      ensures !old(flapDetectionEnabled) ==> unchanged(this) && unchanged(comments) && attempts == []
    {
      if !flapDetectionEnabled {
        return [];
      }
      flapDetectionEnabled := false;
      attempts := HandleFlapDetectionDisabled(comments);
    }
  }
}
