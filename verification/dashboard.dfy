/** The derived figures of the dashboard (components/Dashboard.tsx): focus
    time, average and trend of the engagement history, the chart series and
    the achievement remainder. Averages are real numbers of thousandths, as
    the source divides in floating point. */
module Dashboard {
  import opened Common
  import opened Types
  import opened Constants

  /** Minutes per completed session. */
  const MinutesPerSession: nat := 25

  datatype FocusTime = FocusTime(totalMinutes: nat, hours: nat, minutes: nat)

  /** Total focus time, split into whole hours and leftover minutes. */
  function FocusTimeOf(pomodorosCompleted: nat): (t: FocusTime)
    ensures t.totalMinutes == pomodorosCompleted * MinutesPerSession
    ensures t.hours * 60 + t.minutes == t.totalMinutes && t.minutes < 60
  {
    var total := pomodorosCompleted * MinutesPerSession;
    FocusTime(total, total / 60, total % 60)
  }

  /** The sum of the recorded scores (the `reduce`). */
  function Sum(h: seq<EngagementRecord>): int
    decreases |h|
  {
    if h == [] then 0 else Sum(h[..|h| - 1]) + h[|h| - 1].score
  }

  /** The mean recorded score, 0 for an empty history. */
  function Average(h: seq<EngagementRecord>): (r: real)
    ensures |h| == 0 ==> r == 0.0
    ensures |h| > 0 ==> r * (|h| as real) == Sum(h) as real
  {
    if |h| > 0 then
      DivMulCancel(Sum(h) as real, |h| as real);
      (Sum(h) as real) / (|h| as real)
    else 0.0
  }

  /** Every record's score lies in [lo, hi]. */
  predicate ScoresWithin(h: seq<EngagementRecord>, lo: int, hi: int)
  {
    forall i :: 0 <= i < |h| ==> lo <= h[i].score <= hi
  }

  lemma {:induction false} SumWithin(h: seq<EngagementRecord>, lo: int, hi: int)
    requires ScoresWithin(h, lo, hi)
    ensures |h| * lo <= Sum(h) <= |h| * hi
    decreases |h|
  {
    if h != [] {
      var init := h[..|h| - 1];
      assert ScoresWithin(init, lo, hi) by {
        forall i | 0 <= i < |init| ensures lo <= init[i].score <= hi {
          assert init[i] == h[i];
        }
      }
      SumWithin(init, lo, hi);
      assert |h| * lo == |init| * lo + lo && |h| * hi == |init| * hi + hi;
    }
  }

  lemma CastProduct(a: int, b: int)
    ensures (a * b) as real == (a as real) * (b as real)
  {
  }

  /** A mean of n values, each in [lo, hi], lies in [lo, hi]. */
  lemma MeanWithin(s: real, n: real, lo: real, hi: real)
    requires n > 0.0 && n * lo <= s <= n * hi
    ensures lo <= s / n <= hi
  {
    var q := s / n;
    DivMulCancel(s, n);
    if q < lo {
      MulPositive(lo - q, n);
    }
    if q > hi {
      MulPositive(q - hi, n);
    }
  }

  /** The average lies between any lower and upper bound of the scores, so
      between the smallest and the largest; for an empty history it is 0. */
  lemma AverageWithin(h: seq<EngagementRecord>, lo: int, hi: int)
    requires ScoresWithin(h, lo, hi)
    ensures |h| == 0 ==> Average(h) == 0.0
    ensures |h| > 0 ==> lo as real <= Average(h) <= hi as real
  {
    if |h| > 0 {
      var n, total := |h|, Sum(h);
      SumWithin(h, lo, hi);
      CastProduct(n, lo);
      CastProduct(n, hi);
      MeanWithin(total as real, n as real, lo as real, hi as real);
    }
  }

  /** The last ten and the first ten records. */
  function RecentEngagement(h: seq<EngagementRecord>): (r: seq<EngagementRecord>)
    ensures |r| == Min(|h|, 10) && r == h[|h| - |r|..]
  {
    SliceLast(h, 10)
  }

  function EarlyEngagement(h: seq<EngagementRecord>): (r: seq<EngagementRecord>)
    ensures |r| == Min(|h|, 10) && r == h[..|r|]
  {
    SliceFirst(h, 10)
  }

  /** The trend: the recent average minus the early average. */
  function EngagementTrend(h: seq<EngagementRecord>): (r: real)
    ensures |h| <= 10 ==> r == 0.0
  {
    Average(RecentEngagement(h)) - Average(EarlyEngagement(h))
  }

  /** With ten records or fewer both windows are the whole history, so the trend is flat. */
  lemma ShortHistoryFlatTrend(h: seq<EngagementRecord>)
    requires |h| <= 10
    ensures RecentEngagement(h) == EarlyEngagement(h) == h
    ensures EngagementTrend(h) == 0.0
  {
  }

  /** Both windows of a history with scores in [lo, hi] have scores in [lo, hi]. */
  lemma WindowsWithin(h: seq<EngagementRecord>, lo: int, hi: int)
    requires ScoresWithin(h, lo, hi)
    ensures ScoresWithin(RecentEngagement(h), lo, hi) && ScoresWithin(EarlyEngagement(h), lo, hi)
  {
    var recent, early := RecentEngagement(h), EarlyEngagement(h);
    forall i | 0 <= i < |recent| ensures lo <= recent[i].score <= hi {
      assert recent[i] == h[|h| - |recent| + i];
    }
    forall i | 0 <= i < |early| ensures lo <= early[i].score <= hi {
      assert early[i] == h[i];
    }
  }

  /** With scores in [0, 1], the trend lies in [-1, 1]. */
  lemma TrendBounded(h: seq<EngagementRecord>)
    requires ScoresWithin(h, 0, MaxEngagementScore)
    ensures -(MaxEngagementScore as real) <= EngagementTrend(h) <= MaxEngagementScore as real
  {
    WindowsWithin(h, 0, MaxEngagementScore);
    AverageWithin(RecentEngagement(h), 0, MaxEngagementScore);
    AverageWithin(EarlyEngagement(h), 0, MaxEngagementScore);
  }

  /** The engagement chart: the last twenty records as rounded percentages. */
  function EngagementChartData(h: seq<EngagementRecord>): (r: seq<int>)
    ensures |r| == Min(20, |h|)
    ensures forall i :: 0 <= i < |r| ==> r[i] == RoundedPercent(h[|h| - |r| + i].score)
  {
    var last := SliceLast(h, 20);
    seq(|last|, i requires 0 <= i < |last| => RoundedPercent(last[i].score))
  }

  /** The chart values of scores in [0, 1] lie in [0, 100]. */
  lemma ChartDataWithin(h: seq<EngagementRecord>)
    requires ScoresWithin(h, 0, MaxEngagementScore)
    ensures forall i :: 0 <= i < |EngagementChartData(h)| ==> 0 <= EngagementChartData(h)[i] <= 100
  {
    var r := EngagementChartData(h);
    forall i | 0 <= i < |r| ensures 0 <= r[i] <= 100 {
      var k := |h| - |r| + i;
      assert 0 <= h[k].score <= MaxEngagementScore;
    }
  }

  /** How many catalog achievements are still locked. */
  function RemainingAchievements(unlocked: seq<Achievement>): (r: int)
    ensures r == |Achievements| - |unlocked|
  {
    5 - |unlocked|
  }

  function Ids(list: seq<Achievement>): set<string>
  {
    set i | 0 <= i < |list| :: list[i].id
  }

  lemma {:induction false} DistinctIdsCount(list: seq<Achievement>)
    requires DistinctIds(list)
    ensures |Ids(list)| == |list|
    decreases |list|
  {
    if list != [] {
      var init := list[..|list| - 1];
      assert DistinctIds(init) by {
        forall i, j | 0 <= i < j < |init| ensures init[i].id != init[j].id {
          assert init[i] == list[i] && init[j] == list[j];
        }
      }
      DistinctIdsCount(init);
      var last := list[|list| - 1].id;
      assert Ids(list) == Ids(init) + {last} by {
        forall x | x in Ids(list) ensures x in Ids(init) + {last} {
          var i :| 0 <= i < |list| && list[i].id == x;
          if i < |list| - 1 {
            assert init[i] == list[i];
          }
        }
        forall x | x in Ids(init) ensures x in Ids(list) {
          var i :| 0 <= i < |init| && init[i].id == x;
          assert list[i] == init[i];
        }
      }
      assert last !in Ids(init) by {
        forall i | 0 <= i < |init| ensures init[i].id != last {
          assert init[i] == list[i];
        }
      }
    }
  }

  lemma {:induction false} SubsetCard<T>(a: set<T>, b: set<T>)
    requires a <= b
    ensures |a| <= |b|
    decreases |b|
  {
    if a != {} {
      var x :| x in a;
      SubsetCard(a - {x}, b - {x});
    }
  }

  /** For an unlocked list of distinct catalog entries the remainder is the
      number of catalog entries not unlocked, so it is never negative. */
  lemma RemainingNonNegative(unlocked: seq<Achievement>)
    requires DistinctIds(unlocked)
    requires forall a :: a in unlocked ==> a in Achievements
    ensures RemainingAchievements(unlocked) == |Achievements| - |unlocked|
    ensures 0 <= RemainingAchievements(unlocked) <= 5
  {
    DistinctIdsCount(unlocked);
    CatalogIdsDistinct();
    DistinctIdsCount(Achievements);
    assert Ids(unlocked) <= Ids(Achievements) by {
      forall x | x in Ids(unlocked) ensures x in Ids(Achievements) {
        var i :| 0 <= i < |unlocked| && unlocked[i].id == x;
        assert unlocked[i] in unlocked;
        var j :| 0 <= j < |Achievements| && Achievements[j] == unlocked[i];
      }
    }
    SubsetCard(Ids(unlocked), Ids(Achievements));
  }
}
