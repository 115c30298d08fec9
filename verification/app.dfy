/** The top-level coordinator (App.tsx): points, completed sessions, unlocked
    achievements, the intervention modal's visibility and the routing of timer
    phases to the engagement tracker. The three persisted values are plain
    fields here. */
module App {
  import opened Types
  import opened Constants
  import Engagement

  /** `list.some(a => a.id === id)` */
  predicate HasId(list: seq<Achievement>, id: string)
  {
    exists i :: 0 <= i < |list| && list[i].id == id
  }

  /** The achievement filter: the catalog entries, in catalog order, that are
      not unlocked yet and whose condition holds. */
  function NewlyUnlocked(catalog: seq<Achievement>, unlocked: seq<Achievement>, points: int, sessions: int): (r: seq<Achievement>)
    ensures forall a :: a in r <==> a in catalog && !HasId(unlocked, a.id) && Holds(a.condition, points, sessions)
    ensures |r| <= |catalog|
    decreases |catalog|
  {
    if catalog == [] then []
    else
      var rest := NewlyUnlocked(catalog[1..], unlocked, points, sessions);
      var head := catalog[0];
      assert forall a :: a in catalog <==> a == head || a in catalog[1..];
      if !HasId(unlocked, head.id) && Holds(head.condition, points, sessions) then [head] + rest else rest
  }

  /** `sub` is `sup` with some elements left out, the rest in the same order. */
  predicate IsSubsequence<T(==)>(sub: seq<T>, sup: seq<T>)
    decreases |sup|
  {
    if sub == [] then true
    else if sup == [] then false
    else (sub[0] == sup[0] && IsSubsequence(sub[1..], sup[1..])) || IsSubsequence(sub, sup[1..])
  }

  /** The new entries keep the catalog's order. */
  lemma {:induction false} NewlyUnlockedInCatalogOrder(catalog: seq<Achievement>, unlocked: seq<Achievement>, points: int, sessions: int)
    ensures IsSubsequence(NewlyUnlocked(catalog, unlocked, points, sessions), catalog)
    decreases |catalog|
  {
    if catalog != [] {
      NewlyUnlockedInCatalogOrder(catalog[1..], unlocked, points, sessions);
      var r := NewlyUnlocked(catalog, unlocked, points, sessions);
      var rest := NewlyUnlocked(catalog[1..], unlocked, points, sessions);
      if r != rest {
        assert r == [catalog[0]] + rest;
        assert r[1..] == rest;
      } else if r != [] {
        assert IsSubsequence(r, catalog[1..]);
      }
    }
  }

  /** Evaluating again with the same counters, after the new entries were
      appended, unlocks nothing. */
  lemma EvaluationIdempotent(catalog: seq<Achievement>, unlocked: seq<Achievement>, points: int, sessions: int)
    ensures var added := NewlyUnlocked(catalog, unlocked, points, sessions);
      NewlyUnlocked(catalog, unlocked + added, points, sessions) == []
  {
    var added := NewlyUnlocked(catalog, unlocked, points, sessions);
    forall a | a in catalog && Holds(a.condition, points, sessions)
      ensures HasId(unlocked + added, a.id)
    {
      if HasId(unlocked, a.id) {
        var i :| 0 <= i < |unlocked| && unlocked[i].id == a.id;
        assert (unlocked + added)[i] == unlocked[i];
      } else {
        assert a in added;
        var j :| 0 <= j < |added| && added[j] == a;
        assert (unlocked + added)[|unlocked| + j] == a;
      }
    }
    NothingQualifies(catalog, unlocked + added, points, sessions);
  }

  /** When every catalog entry is unlocked already or fails its condition,
      the filter finds nothing. */
  lemma {:induction false} NothingQualifies(catalog: seq<Achievement>, unlocked: seq<Achievement>, points: int, sessions: int)
    requires forall a :: a in catalog ==> HasId(unlocked, a.id) || !Holds(a.condition, points, sessions)
    ensures NewlyUnlocked(catalog, unlocked, points, sessions) == []
    decreases |catalog|
  {
    if catalog != [] {
      assert catalog[0] in catalog;
      assert forall a :: a in catalog[1..] ==> a in catalog;
      NothingQualifies(catalog[1..], unlocked, points, sessions);
    }
  }

  /** Appending the new entries keeps the list free of duplicate ids, for a
      catalog whose own ids are distinct. */
  lemma {:induction false} EvaluationKeepsIdsDistinct(catalog: seq<Achievement>, unlocked: seq<Achievement>, points: int, sessions: int)
    requires DistinctIds(catalog) && DistinctIds(unlocked)
    ensures DistinctIds(unlocked + NewlyUnlocked(catalog, unlocked, points, sessions))
  {
    var added := NewlyUnlocked(catalog, unlocked, points, sessions);
    NewIdsDistinct(catalog, unlocked, points, sessions);
    var all := unlocked + added;
    forall i, j | 0 <= i < j < |all| ensures all[i].id != all[j].id {
      if j >= |unlocked| && i < |unlocked| {
        assert all[j] == added[j - |unlocked|];
        assert all[j] in added;
        assert !HasId(unlocked, all[j].id);
        assert all[i] == unlocked[i];
      } else if i >= |unlocked| {
        assert all[i] == added[i - |unlocked|] && all[j] == added[j - |unlocked|];
      }
    }
  }

  lemma {:induction false} NewIdsDistinct(catalog: seq<Achievement>, unlocked: seq<Achievement>, points: int, sessions: int)
    requires DistinctIds(catalog)
    ensures DistinctIds(NewlyUnlocked(catalog, unlocked, points, sessions))
    decreases |catalog|
  {
    if catalog != [] {
      var tail := catalog[1..];
      TailDistinct(catalog);
      NewIdsDistinct(tail, unlocked, points, sessions);
      var rest := NewlyUnlocked(tail, unlocked, points, sessions);
      forall a | a in rest ensures a.id != catalog[0].id {
        var k :| 0 <= k < |tail| && tail[k] == a;
        assert catalog[k + 1] == a;
      }
      UnfoldNewlyUnlocked(catalog, unlocked, points, sessions);
      if !HasId(unlocked, catalog[0].id) && Holds(catalog[0].condition, points, sessions) {
        ConsDistinct(catalog[0], rest);
      } else {
        assert NewlyUnlocked(catalog, unlocked, points, sessions) == rest;
      }
    }
  }

  lemma TailDistinct(list: seq<Achievement>)
    requires list != [] && DistinctIds(list)
    ensures DistinctIds(list[1..])
  {
    var tail := list[1..];
    forall i, j | 0 <= i < j < |tail| ensures tail[i].id != tail[j].id {
      assert tail[i] == list[i + 1] && tail[j] == list[j + 1];
    }
  }

  lemma ConsDistinct(x: Achievement, rest: seq<Achievement>)
    requires DistinctIds(rest) && forall a :: a in rest ==> a.id != x.id
    ensures DistinctIds([x] + rest)
  {
    var r := [x] + rest;
    forall i, j | 0 <= i < j < |r| ensures r[i].id != r[j].id {
      assert r[j] == rest[j - 1];
      if i == 0 {
        assert r[j] in rest;
      } else {
        assert r[i] == rest[i - 1];
      }
    }
  }

  /** One step of the filter. */
  lemma UnfoldNewlyUnlocked(catalog: seq<Achievement>, unlocked: seq<Achievement>, points: int, sessions: int)
    requires catalog != []
    ensures NewlyUnlocked(catalog, unlocked, points, sessions) ==
      (if !HasId(unlocked, catalog[0].id) && Holds(catalog[0].condition, points, sessions) then [catalog[0]] else []) +
      NewlyUnlocked(catalog[1..], unlocked, points, sessions)
  {
  }

  /** One step of the filter with nothing unlocked. */
  lemma UnfoldFromNothing(catalog: seq<Achievement>, points: int, sessions: int)
    requires catalog != []
    ensures NewlyUnlocked(catalog, [], points, sessions) ==
      (if Holds(catalog[0].condition, points, sessions) then [catalog[0]] else []) +
      NewlyUnlocked(catalog[1..], [], points, sessions)
  {
    assert !HasId([], catalog[0].id);
    UnfoldNewlyUnlocked(catalog, [], points, sessions);
  }

  /** The filter over a five-entry catalog with nothing unlocked, entry by entry. */
  lemma FiveEntries(c: seq<Achievement>, points: int, sessions: int)
    requires |c| == 5
    ensures NewlyUnlocked(c, [], points, sessions) ==
      (if Holds(c[0].condition, points, sessions) then [c[0]] else []) +
      ((if Holds(c[1].condition, points, sessions) then [c[1]] else []) +
       ((if Holds(c[2].condition, points, sessions) then [c[2]] else []) +
        ((if Holds(c[3].condition, points, sessions) then [c[3]] else []) +
         (if Holds(c[4].condition, points, sessions) then [c[4]] else []))))
  {
    var x0 := if Holds(c[0].condition, points, sessions) then [c[0]] else [];
    var x1 := if Holds(c[1].condition, points, sessions) then [c[1]] else [];
    var x2 := if Holds(c[2].condition, points, sessions) then [c[2]] else [];
    var x3 := if Holds(c[3].condition, points, sessions) then [c[3]] else [];
    var x4 := if Holds(c[4].condition, points, sessions) then [c[4]] else [];
    var d1, d2, d3, d4 := c[1..], c[2..], c[3..], c[4..];
    assert d2 == d1[1..] && d3 == d2[1..] && d4 == d3[1..] && d4[1..] == [];
    assert d1[0] == c[1] && d2[0] == c[2] && d3[0] == c[3] && d4[0] == c[4];
    UnfoldFromNothing(d4, points, sessions);
    assert NewlyUnlocked(d4, [], points, sessions) == x4;
    UnfoldFromNothing(d3, points, sessions);
    assert NewlyUnlocked(d3, [], points, sessions) == x3 + x4;
    UnfoldFromNothing(d2, points, sessions);
    assert NewlyUnlocked(d2, [], points, sessions) == x2 + (x3 + x4);
    UnfoldFromNothing(d1, points, sessions);
    assert NewlyUnlocked(d1, [], points, sessions) == x1 + (x2 + (x3 + x4));
    UnfoldFromNothing(c, points, sessions);
  }

  /** With nothing unlocked yet, the real catalog unlocks, in this order,
      first_points at 10 points, first_pomodoro at one session,
      master_pomodoro at five, point_collector at 100 points and
      point_hoarder at 500. */
  lemma CatalogFromNothing(points: int, sessions: int)
    ensures NewlyUnlocked(Achievements, [], points, sessions) ==
      (if points >= 10 then [Achievements[0]] else []) +
      ((if sessions >= 1 then [Achievements[1]] else []) +
       ((if sessions >= 5 then [Achievements[2]] else []) +
        ((if points >= 100 then [Achievements[3]] else []) +
         (if points >= 500 then [Achievements[4]] else []))))
  {
    CatalogConditions(points, sessions);
    FiveEntries(Achievements, points, sessions);
  }

  /** Four concrete evaluations: nothing at zero, first_points at 10 points,
      first_pomodoro at one session, and both point achievements at once at 100. */
  lemma CatalogExamples()
    ensures NewlyUnlocked(Achievements, [], 0, 0) == []
    ensures NewlyUnlocked(Achievements, [], 10, 0) == [Achievements[0]]
    ensures NewlyUnlocked(Achievements, [], 0, 1) == [Achievements[1]]
    ensures NewlyUnlocked(Achievements, [], 100, 0) == [Achievements[0], Achievements[3]]
  {
    CatalogFromNothing(0, 0);
    CatalogFromNothing(10, 0);
    CatalogFromNothing(0, 1);
    CatalogFromNothing(100, 0);
  }

  /** The coordinator's state. */
  class FocusApp {
    var pomodoroState: PomodoroState
    var showIntervention: bool
    var points: int
    var achievements: seq<Achievement>
    var pomodorosCompleted: int
    const tracker: Engagement.EngagementTracker

    /** Counters never negative; the unlocked list holds catalog entries only,
        each id once. */
    ghost predicate Valid()
      reads this, tracker
    {
      tracker.Valid() && tracker.threshold == EngagementThreshold &&
      points >= 0 && pomodorosCompleted >= 0 &&
      DistinctIds(achievements) && (forall a :: a in achievements ==> a in Achievements)
    }

    /** Mount with the stored counters and list. */
    constructor (now: int, points: nat, achievements: seq<Achievement>, pomodorosCompleted: nat)
      requires DistinctIds(achievements) && forall a :: a in achievements ==> a in Achievements
      ensures Valid() && fresh(tracker) && tracker.State() == Engagement.Initial(now)
      ensures pomodoroState == Stopped && !showIntervention
      ensures this.points == points && this.achievements == achievements && this.pomodorosCompleted == pomodorosCompleted
    {
      pomodoroState := Stopped;
      showIntervention := false;
      this.points := points;
      this.achievements := achievements;
      this.pomodorosCompleted := pomodorosCompleted;
      tracker := new Engagement.EngagementTracker(now, EngagementThreshold);
    }

    /** onEngagementDrop: the breach callback opens the intervention only
        during a focus phase. */
    method OnEngagementDrop()
      requires Valid()
      modifies this
      ensures Valid()
      ensures showIntervention == (old(showIntervention) || pomodoroState == Focus)
      ensures pomodoroState == old(pomodoroState) && points == old(points)
      ensures achievements == old(achievements) && pomodorosCompleted == old(pomodorosCompleted)
    {
      if pomodoroState == Focus {
        showIntervention := true;
      }
    }

    /** handlePomodoroStateChange: a focus phase starts tracking, anything else stops it. */
    method HandlePomodoroStateChange(newState: PomodoroState, now: int)
      requires Valid()
      modifies this, tracker
      ensures Valid()
      ensures pomodoroState == newState
      ensures newState == Focus ==> tracker.State() == Engagement.AfterStart(old(tracker.State()), now)
      ensures newState != Focus ==> tracker.State() == Engagement.AfterStop(old(tracker.State()))
      ensures showIntervention == old(showIntervention) && points == old(points)
      ensures achievements == old(achievements) && pomodorosCompleted == old(pomodorosCompleted)
    {
      pomodoroState := newState;
      if newState == Focus {
        tracker.StartTracking(now);
      } else {
        tracker.StopTracking();
      }
    }

    /** onPomodoroComplete: one more session and 25 more points. */
    method OnPomodoroComplete()
      requires Valid()
      modifies this
      ensures Valid()
      ensures pomodorosCompleted == old(pomodorosCompleted) + 1 && points == old(points) + 25
      ensures pomodoroState == old(pomodoroState) && showIntervention == old(showIntervention)
      ensures achievements == old(achievements)
    {
      pomodorosCompleted := pomodorosCompleted + 1;
      points := points + 25;
    }

    /** handleInterventionClose: the modal closes; a passed challenge earns
        10 points and resets the tracker. */
    method HandleInterventionClose(success: bool, now: int)
      requires Valid()
      modifies this, tracker
      ensures Valid()
      ensures !showIntervention
      ensures points == old(points) + (if success then 10 else 0)
      ensures success ==> tracker.State() == Engagement.AfterReset(old(tracker.State()), now)
      ensures !success ==> tracker.State() == old(tracker.State())
      ensures pomodoroState == old(pomodoroState)
      ensures achievements == old(achievements) && pomodorosCompleted == old(pomodorosCompleted)
    {
      showIntervention := false;
      if success {
        points := points + 10;
        tracker.ResetEngagement(now);
      }
    }

    /** The achievement effect: append whatever the filter finds. */
    method EvaluateAchievements()
      requires Valid()
      modifies this
      ensures Valid()
      ensures achievements == old(achievements) + NewlyUnlocked(Achievements, old(achievements), points, pomodorosCompleted)
      ensures points == old(points) && pomodorosCompleted == old(pomodorosCompleted)
      ensures pomodoroState == old(pomodoroState) && showIntervention == old(showIntervention)
    {
      var newAchievements := NewlyUnlocked(Achievements, achievements, points, pomodorosCompleted);
      CatalogIdsDistinct();
      EvaluationKeepsIdsDistinct(Achievements, achievements, points, pomodorosCompleted);
      if |newAchievements| > 0 {
        achievements := achievements + newAchievements;
      }
    }
  }
}
