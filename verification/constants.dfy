/** Configuration constants and the achievement catalog (constants.ts). */
module Constants {
  import opened Types

  /** Phase lengths in seconds. */
  const FocusDuration: nat := 25 * 60
  const BreakDuration: nat := 5 * 60

  /** Engagement constants, in thousandths of a score point. */
  const EngagementThreshold: int := 900
  const EngagementDecayRate: int := 5
  const ActivityBump: int := 100
  const MaxEngagementScore: int := 1000

  /** The condition of a catalog entry, evaluated on the two counters. */
  predicate Holds(c: Condition, points: int, sessions: int)
  {
    match c
    case PointsAtLeast(n) => points >= n
    case SessionsAtLeast(n) => sessions >= n
  }

  const Achievements: seq<Achievement> := [
    Achievement("first_points", "Point Scorer", "Earn your first 10 points.", PointsAtLeast(10)),
    Achievement("first_pomodoro", "Focus Starter", "Complete your first Focus session.", SessionsAtLeast(1)),
    Achievement("master_pomodoro", "Focus Master", "Complete 5 Focus sessions.", SessionsAtLeast(5)),
    Achievement("point_collector", "Point Collector", "Reach 100 points.", PointsAtLeast(100)),
    Achievement("point_hoarder", "Point Hoarder", "Reach 500 points.", PointsAtLeast(500))
  ]

  /** No two entries of the list share an id. */
  predicate DistinctIds(list: seq<Achievement>)
  {
    forall i, j :: 0 <= i < j < |list| ==> list[i].id != list[j].id
  }

  /** What each catalog entry unlocks on. */
  lemma CatalogConditions(points: int, sessions: int)
    ensures |Achievements| == 5
    ensures Achievements[0].id == "first_points" && (Holds(Achievements[0].condition, points, sessions) <==> points >= 10)
    ensures Achievements[1].id == "first_pomodoro" && (Holds(Achievements[1].condition, points, sessions) <==> sessions >= 1)
    ensures Achievements[2].id == "master_pomodoro" && (Holds(Achievements[2].condition, points, sessions) <==> sessions >= 5)
    ensures Achievements[3].id == "point_collector" && (Holds(Achievements[3].condition, points, sessions) <==> points >= 100)
    ensures Achievements[4].id == "point_hoarder" && (Holds(Achievements[4].condition, points, sessions) <==> points >= 500)
  {
  }

  /** The five catalog ids are pairwise distinct. */
  lemma CatalogIdsDistinct()
    ensures DistinctIds(Achievements)
  {
  }

  /** Every condition stays true when the counters grow. */
  lemma ConditionMonotone(c: Condition, points: int, sessions: int, points': int, sessions': int)
    requires points <= points' && sessions <= sessions'
    ensures Holds(c, points, sessions) ==> Holds(c, points', sessions')
  {
  }
}
