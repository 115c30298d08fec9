/** The engagement tracker (hooks/useEngagement.ts).

    The tracker's state is given twice: as a value, `TrackerState`, with one
    transition function per operation (so that whole runs of events can be
    reasoned about), and as the class `EngagementTracker`, whose methods update
    its fields in place and are proved to perform exactly those transitions.
    Clock readings are parameters (`now`, in milliseconds); scores are in
    thousandths. */
module Engagement {
  import opened Common
  import opened Types
  import opened Constants
  import Gemini

  /** The longest the history grows; a tick keeps the last `HistoryCap - 1` records. */
  const HistoryCap: nat := 100
  /** Milliseconds without activity after which the idle penalty is requested. */
  const IdleTimeout: int := 13000
  /** The hidden-tab penalty (0.5). */
  const VisibilityPenalty: int := 500

  predicate InRange(score: int)
  {
    0 <= score <= MaxEngagementScore
  }

  /** score, history, and the three refs of the hook */
  datatype TrackerState = TrackerState(
    score: int,
    history: seq<EngagementRecord>,
    thresholdBreached: bool,
    lastActivity: int,
    idlePenaltyApplied: bool)

  /** The invariant every operation keeps: the score and every recorded score
      lie in [0, 1], and the history holds at most 100 records. */
  predicate Inv(s: TrackerState)
  {
    InRange(s.score) && |s.history| <= HistoryCap &&
    forall i :: 0 <= i < |s.history| ==> InRange(s.history[i].score)
  }

  /** The state when the hook mounts. */
  function Initial(now: int): (s: TrackerState)
    ensures Inv(s)
    ensures s.score == MaxEngagementScore && s.history == []
    ensures !s.thresholdBreached && !s.idlePenaltyApplied && s.lastActivity == now
  {
    TrackerState(MaxEngagementScore, [], false, now, false)
  }

  /** handleActivity: bump the score by 0.1, capped at 1.0, note the time and
      clear the idle-penalty flag. */
  function AfterActivity(s: TrackerState, now: int): (r: TrackerState)
    ensures Inv(s) ==> Inv(r)
    ensures r.score <= MaxEngagementScore
    ensures r.score == s.score + ActivityBump || (r.score == MaxEngagementScore && s.score + ActivityBump > MaxEngagementScore)
    ensures r.lastActivity == now && !r.idlePenaltyApplied
    ensures r.history == s.history && r.thresholdBreached == s.thresholdBreached
  {
    s.(score := Min(s.score + ActivityBump, MaxEngagementScore), lastActivity := now, idlePenaltyApplied := false)
  }

  /** startTracking: a fresh session. */
  function AfterStart(s: TrackerState, now: int): (r: TrackerState)
    ensures r == Initial(now)
  {
    TrackerState(MaxEngagementScore, [], false, now, false)
  }

  /** stopTracking: the score goes back to 1.0 and the history is discarded;
      the two flags and the activity time are left as they were. */
  function AfterStop(s: TrackerState): (r: TrackerState)
    ensures Inv(s) ==> Inv(r)
    ensures r.score == MaxEngagementScore && r.history == []
    ensures r.thresholdBreached == s.thresholdBreached && r.idlePenaltyApplied == s.idlePenaltyApplied
    ensures r.lastActivity == s.lastActivity
  {
    s.(score := MaxEngagementScore, history := [])
  }

  /** resetEngagement: the score goes back to 1.0 and both flags are cleared;
      the history is kept. */
  function AfterReset(s: TrackerState, now: int): (r: TrackerState)
    ensures Inv(s) ==> Inv(r)
    ensures r.score == MaxEngagementScore && !r.thresholdBreached && !r.idlePenaltyApplied
    ensures r.lastActivity == now && r.history == s.history
  {
    s.(score := MaxEngagementScore, thresholdBreached := false, lastActivity := now, idlePenaltyApplied := false)
  }

  /** The new state of a decay tick and whether it invoked the breach callback. */
  datatype TickOutcome = TickOutcome(state: TrackerState, breach: bool)

  /** The body of the one-second decay interval. */
  function AfterDecayTick(s: TrackerState, now: int, threshold: int): (o: TickOutcome)
    ensures Inv(s) ==> Inv(o.state)
    // the score drops by 0.005 and stops at zero
    ensures o.state.score >= 0
    ensures o.state.score == s.score - EngagementDecayRate || (o.state.score == 0 && s.score < EngagementDecayRate)
    // the callback fires on the first score below the threshold, and only then
    ensures o.breach <==> o.state.score < threshold && !s.thresholdBreached
    ensures o.state.thresholdBreached == (s.thresholdBreached || o.breach)
    // the oldest records are evicted first and the new record comes last
    ensures o.state.history == SliceLast(s.history, HistoryCap - 1) + [EngagementRecord(now, o.state.score)]
    ensures |o.state.history| <= HistoryCap
    ensures o.state.lastActivity == s.lastActivity && o.state.idlePenaltyApplied == s.idlePenaltyApplied
  {
    var newScore := Max(0, s.score - EngagementDecayRate);
    var breach := newScore < threshold && !s.thresholdBreached;
    var kept := SliceLast(s.history, HistoryCap - 1);
    TickOutcome(
      s.(score := newScore,
         thresholdBreached := s.thresholdBreached || breach,
         history := kept + [EngagementRecord(now, newScore)]),
      breach)
  }

  /** The visibility handler: a hidden tab costs 0.5, never below zero. */
  function AfterVisibilityChange(s: TrackerState, hidden: bool): (r: TrackerState)
    ensures Inv(s) ==> Inv(r)
    ensures !hidden ==> r == s
    ensures hidden ==> r.score >= 0 && (r.score == s.score - VisibilityPenalty || (r.score == 0 && s.score < VisibilityPenalty))
    ensures r.history == s.history && r.thresholdBreached == s.thresholdBreached
    ensures r.lastActivity == s.lastActivity && r.idlePenaltyApplied == s.idlePenaltyApplied
  {
    if hidden then s.(score := Max(0, s.score - VisibilityPenalty)) else s
  }

  /** The new state of an idle check and, when it asks for the idle penalty,
      the score it hands to the backend. */
  datatype IdleOutcome = IdleOutcome(state: TrackerState, request: Option<int>)

  /** The body of the one-second idle-check interval (the first half of the
      asynchronous idle penalty). */
  function AfterIdleCheck(s: TrackerState, now: int): (o: IdleOutcome)
    ensures Inv(s) ==> Inv(o.state)
    ensures o.request.Some? <==> now - s.lastActivity > IdleTimeout && !s.idlePenaltyApplied
    ensures o.request.Some? ==> o.request.value == s.score && o.state == s.(idlePenaltyApplied := true)
    ensures o.request.None? ==> o.state == s
  {
    if now - s.lastActivity > IdleTimeout && !s.idlePenaltyApplied then
      IdleOutcome(s.(idlePenaltyApplied := true), Some(s.score))
    else
      IdleOutcome(s, None)
  }

  /** The second half of the idle penalty: the backend's answer for the score
      captured at request time overwrites the current score, whatever happened
      to it in between (last writer wins). */
  function AfterIdlePenalty(s: TrackerState, captured: int): (r: TrackerState)
    ensures InRange(captured) && Inv(s) ==> Inv(r)
    ensures InRange(captured) ==> 0 <= r.score <= captured
    ensures r.score == Gemini.CalculateIdlePenalty(captured)
    ensures r.history == s.history && r.thresholdBreached == s.thresholdBreached
    ensures r.lastActivity == s.lastActivity && r.idlePenaltyApplied == s.idlePenaltyApplied
  {
    s.(score := Gemini.CalculateIdlePenalty(captured))
  }

  // ---------------------------------------------------------------------------
  // Runs of events

  /** Everything that can happen to the tracker, in the order it happens.
      `PenaltyResolved(c)` is the backend answering a request that captured c. */
  datatype Event =
    | ActivityEvent(now: int)
    | StartEvent(now: int)
    | StopEvent
    | ResetEvent(now: int)
    | TickEvent(now: int)
    | VisibilityEvent(hidden: bool)
    | IdleCheckEvent(now: int)
    | PenaltyResolved(captured: int)

  function Apply(s: TrackerState, e: Event, threshold: int): TrackerState
  {
    match e
    case ActivityEvent(now) => AfterActivity(s, now)
    case StartEvent(now) => AfterStart(s, now)
    case StopEvent => AfterStop(s)
    case ResetEvent(now) => AfterReset(s, now)
    case TickEvent(now) => AfterDecayTick(s, now, threshold).state
    case VisibilityEvent(hidden) => AfterVisibilityChange(s, hidden)
    case IdleCheckEvent(now) => AfterIdleCheck(s, now).state
    case PenaltyResolved(c) => AfterIdlePenalty(s, c)
  }

  /** Whether the event invokes the breach callback. */
  predicate Breaches(s: TrackerState, e: Event, threshold: int)
  {
    e.TickEvent? && AfterDecayTick(s, e.now, threshold).breach
  }

  /** Whether the event sends an idle-penalty request. */
  predicate Requests(s: TrackerState, e: Event)
  {
    e.IdleCheckEvent? && AfterIdleCheck(s, e.now).request.Some?
  }

  function Run(s: TrackerState, es: seq<Event>, threshold: int): TrackerState
    decreases |es|
  {
    if es == [] then s else Run(Apply(s, es[0], threshold), es[1..], threshold)
  }

  /** How many times the breach callback fires during a run. */
  function BreachCount(s: TrackerState, es: seq<Event>, threshold: int): nat
    decreases |es|
  {
    if es == [] then 0
    else (if Breaches(s, es[0], threshold) then 1 else 0) + BreachCount(Apply(s, es[0], threshold), es[1..], threshold)
  }

  /** How many idle-penalty requests a run sends. */
  function RequestCount(s: TrackerState, es: seq<Event>, threshold: int): nat
    decreases |es|
  {
    if es == [] then 0
    else (if Requests(s, es[0]) then 1 else 0) + RequestCount(Apply(s, es[0], threshold), es[1..], threshold)
  }

  /** Every backend answer in the run is for a score in [0, 1]. */
  predicate CapturedInRange(es: seq<Event>)
  {
    forall i :: 0 <= i < |es| && es[i].PenaltyResolved? ==> InRange(es[i].captured)
  }

  /** The score stays in [0, 1] and the history at 100 records or fewer,
      whatever happens. */
  lemma {:induction false} RunKeepsInv(s: TrackerState, es: seq<Event>, threshold: int)
    requires Inv(s) && CapturedInRange(es)
    ensures Inv(Run(s, es, threshold))
    decreases |es|
  {
    if es != [] {
      assert CapturedInRange(es[1..]) by {
        forall i | 0 <= i < |es[1..]| && es[1..][i].PenaltyResolved?
          ensures InRange(es[1..][i].captured)
        {
          assert es[1..][i] == es[i + 1];
        }
      }
      assert es[0].PenaltyResolved? ==> InRange(es[0].captured);
      RunKeepsInv(Apply(s, es[0], threshold), es[1..], threshold);
    }
  }

  /** Only starting or resetting the tracker clears the breach flag. */
  predicate NoRestart(es: seq<Event>)
  {
    forall i :: 0 <= i < |es| ==> !es[i].StartEvent? && !es[i].ResetEvent?
  }

  /** Between two starts or resets the breach callback fires at most once,
      and not at all once the flag is set. */
  lemma {:induction false} BreachAtMostOnce(s: TrackerState, es: seq<Event>, threshold: int)
    requires NoRestart(es)
    ensures BreachCount(s, es, threshold) <= 1
    ensures s.thresholdBreached ==> BreachCount(s, es, threshold) == 0
    decreases |es|
  {
    if es != [] {
      var s' := Apply(s, es[0], threshold);
      assert NoRestart(es[1..]) by {
        forall i | 0 <= i < |es[1..]| ensures !es[1..][i].StartEvent? && !es[1..][i].ResetEvent? {
          assert es[1..][i] == es[i + 1];
        }
      }
      assert !es[0].StartEvent? && !es[0].ResetEvent?;
      assert s.thresholdBreached ==> s'.thresholdBreached;
      assert Breaches(s, es[0], threshold) ==> s'.thresholdBreached;
      BreachAtMostOnce(s', es[1..], threshold);
    }
  }

  /** Only activity, starting or resetting clears the idle-penalty flag. */
  predicate NoActivity(es: seq<Event>)
  {
    forall i :: 0 <= i < |es| ==> !es[i].ActivityEvent? && !es[i].StartEvent? && !es[i].ResetEvent?
  }

  /** Without intervening activity, start or reset, at most one idle-penalty
      request is sent, and none once the flag is set. */
  lemma {:induction false} IdleRequestAtMostOnce(s: TrackerState, es: seq<Event>, threshold: int)
    requires NoActivity(es)
    ensures RequestCount(s, es, threshold) <= 1
    ensures s.idlePenaltyApplied ==> RequestCount(s, es, threshold) == 0
    decreases |es|
  {
    if es != [] {
      var s' := Apply(s, es[0], threshold);
      assert NoActivity(es[1..]) by {
        forall i | 0 <= i < |es[1..]|
          ensures !es[1..][i].ActivityEvent? && !es[1..][i].StartEvent? && !es[1..][i].ResetEvent?
        {
          assert es[1..][i] == es[i + 1];
        }
      }
      assert !es[0].ActivityEvent? && !es[0].StartEvent? && !es[0].ResetEvent?;
      assert s.idlePenaltyApplied ==> s'.idlePenaltyApplied;
      assert Requests(s, es[0]) ==> s'.idlePenaltyApplied;
      IdleRequestAtMostOnce(s', es[1..], threshold);
    }
  }

  predicate OnlyTicks(es: seq<Event>)
  {
    forall i :: 0 <= i < |es| ==> es[i].TickEvent?
  }

  /** n decay ticks without anything else lower the score by n * 0.005,
      stopping at zero. */
  lemma {:induction false} TicksDecay(s: TrackerState, es: seq<Event>, threshold: int)
    requires OnlyTicks(es) && s.score >= 0
    ensures Run(s, es, threshold).score == Max(0, s.score - EngagementDecayRate * |es|)
    decreases |es|
  {
    if es != [] {
      assert OnlyTicks(es[1..]) by {
        forall i | 0 <= i < |es[1..]| ensures es[1..][i].TickEvent? {
          assert es[1..][i] == es[i + 1];
        }
      }
      assert es[0].TickEvent?;
      TicksDecay(Apply(s, es[0], threshold), es[1..], threshold);
    }
  }

  /** Events that never raise the score: ticks, idle checks and visibility changes. */
  predicate NoBoost(es: seq<Event>)
  {
    forall i :: 0 <= i < |es| ==> es[i].TickEvent? || es[i].IdleCheckEvent? || es[i].VisibilityEvent?
  }

  /** Without activity, restarts or backend answers the score never rises and
      never becomes negative. */
  lemma {:induction false} ScoreNeverRisesWithoutActivity(s: TrackerState, es: seq<Event>, threshold: int)
    requires NoBoost(es) && s.score >= 0
    ensures 0 <= Run(s, es, threshold).score <= s.score
    decreases |es|
  {
    if es != [] {
      assert NoBoost(es[1..]) by {
        forall i | 0 <= i < |es[1..]|
          ensures es[1..][i].TickEvent? || es[1..][i].IdleCheckEvent? || es[1..][i].VisibilityEvent?
        {
          assert es[1..][i] == es[i + 1];
        }
      }
      assert es[0].TickEvent? || es[0].IdleCheckEvent? || es[0].VisibilityEvent?;
      ScoreNeverRisesWithoutActivity(Apply(s, es[0], threshold), es[1..], threshold);
    }
  }

  /** Over a run of ticks with the flag unset, the callback fires exactly once
      if some tick brings the score below the threshold, and never otherwise. */
  lemma {:induction false} TicksBreachCount(s: TrackerState, es: seq<Event>, threshold: int)
    requires OnlyTicks(es) && s.score >= 0 && !s.thresholdBreached
    ensures BreachCount(s, es, threshold) == if |es| > 0 && Run(s, es, threshold).score < threshold then 1 else 0
    decreases |es|
  {
    if es == [] {
    } else {
      var s' := Apply(s, es[0], threshold);
      assert OnlyTicks(es[1..]) by {
        forall i | 0 <= i < |es[1..]| ensures es[1..][i].TickEvent? {
          assert es[1..][i] == es[i + 1];
        }
      }
      assert es[0].TickEvent?;
      assert BreachCount(s, es, threshold) ==
        (if Breaches(s, es[0], threshold) then 1 else 0) + BreachCount(s', es[1..], threshold);
      assert Run(s, es, threshold) == Run(s', es[1..], threshold);
      if Breaches(s, es[0], threshold) {
        assert s'.thresholdBreached && s'.score < threshold;
        assert NoRestart(es[1..]);
        BreachAtMostOnce(s', es[1..], threshold);
        ScoreNeverRisesWithoutActivity(s', es[1..], threshold);
      } else {
        assert !s'.thresholdBreached && s'.score >= 0;
        assert s'.score >= threshold;
        TicksBreachCount(s', es[1..], threshold);
      }
    }
  }

  /** From a fresh start with no activity, the 21st decay tick is the first
      to bring the score below 0.9, and it invokes the callback. */
  lemma FirstBreachOnTwentyFirstTick(s0: TrackerState, now: int, es: seq<Event>)
    requires |es| == 21 && OnlyTicks(es)
    ensures BreachCount(AfterStart(s0, now), es[..20], EngagementThreshold) == 0
    ensures BreachCount(AfterStart(s0, now), es, EngagementThreshold) == 1
  {
    var s := AfterStart(s0, now);
    assert OnlyTicks(es[..20]) by {
      forall i | 0 <= i < 20 ensures es[..20][i].TickEvent? {
        assert es[..20][i] == es[i];
      }
    }
    TicksDecay(s, es[..20], EngagementThreshold);
    TicksBreachCount(s, es[..20], EngagementThreshold);
    TicksDecay(s, es, EngagementThreshold);
    TicksBreachCount(s, es, EngagementThreshold);
  }

  /** The race between activity and the idle penalty: activity that arrives while an idle-penalty request
      is in flight is overwritten by the answer, so the visible score first
      rises and then drops below what the activity had made it; the flag stays
      cleared, so a later idle period can ask again. */
  lemma ActivityDuringPenaltyIsOverwritten(s: TrackerState, checkTime: int, activityTime: int)
    requires Inv(s)
    requires AfterIdleCheck(s, checkTime).request.Some?
    ensures var o := AfterIdleCheck(s, checkTime);
            var bumped := AfterActivity(o.state, activityTime);
            var resolved := AfterIdlePenalty(bumped, o.request.value);
            bumped.score >= s.score && resolved.score < bumped.score && !resolved.idlePenaltyApplied
  {
  }

  // ---------------------------------------------------------------------------
  // The hook as an object

  /** The hook's state, updated in place by its callbacks and interval bodies. */
  class EngagementTracker {
    var score: int
    var history: seq<EngagementRecord>
    var thresholdBreached: bool
    var lastActivity: int
    var idlePenaltyApplied: bool
    /** the threshold the caller configures */
    const threshold: int

    function State(): TrackerState
      reads this
    {
      TrackerState(score, history, thresholdBreached, lastActivity, idlePenaltyApplied)
    }

    ghost predicate Valid()
      reads this
    {
      Inv(State())
    }

    constructor (now: int, threshold: int)
      ensures Valid() && State() == Initial(now) && this.threshold == threshold
    {
      score := MaxEngagementScore;
      history := [];
      thresholdBreached := false;
      lastActivity := now;
      idlePenaltyApplied := false;
      this.threshold := threshold;
    }

    method HandleActivity(now: int)
      requires Valid()
      modifies this
      ensures Valid() && State() == AfterActivity(old(State()), now)
    {
      lastActivity := now;
      if idlePenaltyApplied {
        idlePenaltyApplied := false;
      }
      score := Min(score + ActivityBump, MaxEngagementScore);
    }

    method StartTracking(now: int)
      requires Valid()
      modifies this
      ensures Valid() && State() == AfterStart(old(State()), now)
    {
      score := MaxEngagementScore;
      history := [];
      thresholdBreached := false;
      lastActivity := now;
      idlePenaltyApplied := false;
    }

    method StopTracking()
      requires Valid()
      modifies this
      ensures Valid() && State() == AfterStop(old(State()))
    {
      score := MaxEngagementScore;
      history := [];
    }

    method ResetEngagement(now: int)
      requires Valid()
      modifies this
      ensures Valid() && State() == AfterReset(old(State()), now)
    {
      score := MaxEngagementScore;
      thresholdBreached := false;
      lastActivity := now;
      idlePenaltyApplied := false;
    }

    /** One run of the decay interval; `breach` tells whether it invoked the
        threshold-breach callback. */
    method DecayTick(now: int) returns (breach: bool)
      requires Valid()
      modifies this
      ensures Valid()
      ensures State() == AfterDecayTick(old(State()), now, threshold).state
      ensures breach == AfterDecayTick(old(State()), now, threshold).breach
    {
      ghost var o := AfterDecayTick(State(), now, threshold);
      var newScore := Max(0, score - EngagementDecayRate);
      breach := false;
      if newScore < threshold && !thresholdBreached {
        thresholdBreached := true;
        breach := true;
      }
      score := newScore;
      var last := SliceLast(history, HistoryCap - 1);
      history := last + [EngagementRecord(now, newScore)];
      assert State() == o.state && breach == o.breach;
    }

    method HandleVisibilityChange(hidden: bool)
      requires Valid()
      modifies this
      ensures Valid() && State() == AfterVisibilityChange(old(State()), hidden)
    {
      if hidden {
        score := Max(0, score - VisibilityPenalty);
      }
    }

    /** One run of the idle-check interval; `request` is the score sent to the
        backend, if a request is made. */
    method IdleCheck(now: int) returns (request: Option<int>)
      requires Valid()
      modifies this
      ensures Valid()
      ensures State() == AfterIdleCheck(old(State()), now).state
      ensures request == AfterIdleCheck(old(State()), now).request
    {
      var idleTime := now - lastActivity;
      request := None;
      if idleTime > IdleTimeout && !idlePenaltyApplied {
        idlePenaltyApplied := true;
        request := Some(score);
      }
    }

    /** The backend's answer to a request that captured `captured`. */
    method ResolveIdlePenalty(captured: int)
      requires Valid() && InRange(captured)
      modifies this
      ensures Valid() && State() == AfterIdlePenalty(old(State()), captured)
    {
      score := Gemini.CalculateIdlePenalty(captured);
    }
  }
}
