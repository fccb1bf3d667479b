/** Anomalous spend (api/src/usage/spend-detection.ts): days that cost more than three times the average
    of the last 30 days before today. Costs are exact reals and dates are day numbers; the reported
    figures are rounded as `toFixed` rounds an exact value. */
module SpendDetection {

  const MULTIPLIER: real := 3.0
  const ROLLING_WINDOW_DAYS: nat := 30

  datatype DailyCost = DailyCost(date: int, costUsd: real)

  datatype Anomaly = Anomaly(date: int, dailyCost: real, rollingAverage: real, ratio: real, threshold: real)

  datatype Report = Report(anomalies: seq<Anomaly>, rollingAverage: real, threshold: real)

  /** The nearest integer, ties away from zero. */
  function Nearest(x: real): (n: int)
    ensures -0.5 <= n as real - x <= 0.5
    ensures (n as real - x == 0.5 ==> x >= 0.0) && (n as real - x == -0.5 ==> x < 0.0)
  {
    if x < 0.0 then -(-x + 0.5).Floor else (x + 0.5).Floor
  }

  /** The nearest multiple of `1 / scale`. */
  function ToFixed(x: real, scale: nat): (r: real)
    requires scale > 0
    ensures r * scale as real == Nearest(x * scale as real) as real
  {
    Nearest(x * scale as real) as real / scale as real
  }

  function Before(days: seq<DailyCost>, today: int): seq<DailyCost> {
    if days == [] then []
    else (if days[0].date < today then [days[0]] else []) + Before(days[1..], today)
  }

  /** The most recent history: the last 30 entries before today. */
  function Recent(days: seq<DailyCost>, today: int): (r: seq<DailyCost>)
    ensures |r| <= ROLLING_WINDOW_DAYS
  {
    var history := Before(days, today);
    if |history| <= ROLLING_WINDOW_DAYS then history else history[|history| - ROLLING_WINDOW_DAYS..]
  }

  /** One more day changes the history only if it lies before today, and then takes the place of the first of
      thirty. */
  lemma {:induction false} RecentSlides(days: seq<DailyCost>, today: int, day: DailyCost)
    ensures var before := Recent(days, today);
            Recent(days + [day], today)
            == if day.date >= today then before
               else if |before| < 30 then before + [day]
               else before[1..] + [day]
    ensures Recent([], today) == []
  {
    BeforeConcat(days, [day], today);
    assert Before([], today) == [];
    assert Before([day], today) == if day.date < today then [day] else [];
    hide Before;
    var before := Before(days, today);
    assert Before(days + [day], today) == if day.date < today then before + [day] else before;
  }

  lemma {:induction false} BeforeConcat(a: seq<DailyCost>, b: seq<DailyCost>, today: int)
    ensures Before(a + b, today) == Before(a, today) + Before(b, today)
    decreases |a|
  {
    if a == [] {
      assert a + b == b;
    } else {
      assert (a + b)[1..] == a[1..] + b;
      BeforeConcat(a[1..], b, today);
    }
  }

  function Sum(days: seq<DailyCost>): real {
    if days == [] then 0.0 else days[0].costUsd + Sum(days[1..])
  }

  function Average(days: seq<DailyCost>): real {
    if days == [] then 0.0 else Sum(days) / |days| as real
  }

  predicate Flags(average: real, day: DailyCost) {
    average > 0.0 && day.costUsd > average * MULTIPLIER
  }

  function Flagged(average: real, days: seq<DailyCost>): seq<DailyCost>
    decreases |days|
  {
    if days == [] then []
    else
      var k := |days| - 1;
      Flagged(average, days[..k]) + if Flags(average, days[k]) then [days[k]] else []
  }

  /** How a flagged day is reported. */
  function Reported(average: real, day: DailyCost): Anomaly
    requires average > 0.0
  {
    Anomaly(day.date, ToFixed(day.costUsd, 1_000_000), ToFixed(average, 1_000_000),
            ToFixed(day.costUsd / average, 10_000), ToFixed(average * MULTIPLIER, 1_000_000))
  }

  /** Costs to six places, the ratio to four, against three times the average. */
  lemma ReportedFields(average: real, day: DailyCost)
    requires average > 0.0
    ensures var a := Reported(average, day);
            && a.date == day.date && a.dailyCost == ToFixed(day.costUsd, 1_000_000)
            && a.rollingAverage == ToFixed(average, 1_000_000) && a.ratio == ToFixed(day.costUsd / average, 10_000)
            && a.threshold == ToFixed(3.0 * average, 1_000_000)
  {
    hide ToFixed;
  }

  function AllReported(average: real, flagged: seq<DailyCost>): (r: seq<Anomaly>)
    requires flagged != [] ==> average > 0.0
    ensures |r| == |flagged|
  {
    seq(|flagged|, i requires 0 <= i < |flagged| => Reported(average, flagged[i]))
  }

  lemma {:induction false} FlaggedPositive(average: real, days: seq<DailyCost>)
    ensures Flagged(average, days) != [] ==> average > 0.0
    ensures forall day :: day in Flagged(average, days) ==> Flags(average, day)
    decreases |days|
  {
    if days != [] {
      FlaggedPositive(average, days[..|days| - 1]);
    }
  }

  /** Days are judged one by one, in order: above three times a positive average. */
  lemma FlaggedOneMore(average: real, days: seq<DailyCost>, day: DailyCost)
    ensures Flagged(average, days + [day])
            == Flagged(average, days) + if average > 0.0 && day.costUsd > 3.0 * average then [day] else []
    ensures Flagged(average, []) == []
  {
    assert (days + [day])[..|days|] == days;
  }

  lemma SumOneMore(days: seq<DailyCost>, day: DailyCost)
    ensures Sum(days + [day]) == Sum(days) + day.costUsd && Sum([]) == 0.0
  {
    SumSplit(days, [day]);
    assert Sum([day]) == day.costUsd + Sum([]);
  }

  /** The average is the total over the number of days. */
  lemma AverageMeans(days: seq<DailyCost>)
    ensures days != [] ==> Average(days) * |days| as real == Sum(days)
    ensures Average([]) == 0.0
  {
    hide Sum;
    if days != [] {
      Divides(Sum(days), |days| as real);
    }
  }

  lemma Divides(x: real, n: real)
    requires n > 0.0
    ensures x / n * n == x
  {}

  method DetectAnomalies(dailyCosts: seq<DailyCost>, today: int) returns (report: Report)
    ensures var average := Average(Recent(dailyCosts, today));
            && (Flagged(average, dailyCosts) != [] ==> average > 0.0)
            && report == Report(AllReported(average, Flagged(average, dailyCosts)),
                                ToFixed(average, 1_000_000), ToFixed(average * MULTIPLIER, 1_000_000))
    ensures forall a :: a in report.anomalies ==> a.ratio >= 3.0
  {
    hide ToFixed;
    FixedZero();
    if |dailyCosts| == 0 {
      return Report([], 0.0, 0.0);
    }
    var recentHistory := Recent(dailyCosts, today);
    var rollingAvg := 0.0;
    if |recentHistory| > 0 {
      rollingAvg := Sum(recentHistory) / |recentHistory| as real;
    }
    var threshold := rollingAvg * MULTIPLIER;
    var anomalies: seq<Anomaly> := [];
    for i := 0 to |dailyCosts|
      invariant Flagged(rollingAvg, dailyCosts[..i]) != [] ==> rollingAvg > 0.0
      invariant anomalies == AllReported(rollingAvg, Flagged(rollingAvg, dailyCosts[..i]))
      invariant forall a :: a in anomalies ==> a.ratio >= 3.0
    {
      assert dailyCosts[..i + 1][..i] == dailyCosts[..i];
      var day := dailyCosts[i];
      if rollingAvg > 0.0 && day.costUsd > threshold {
        RatioAtLeastThree(rollingAvg, day);
        anomalies := anomalies + [Anomaly(
          day.date, ToFixed(day.costUsd, 1_000_000), ToFixed(rollingAvg, 1_000_000),
          ToFixed(day.costUsd / rollingAvg, 10_000), ToFixed(threshold, 1_000_000))];
      }
    }
    assert dailyCosts[..|dailyCosts|] == dailyCosts;
    report := Report(anomalies, ToFixed(rollingAvg, 1_000_000), ToFixed(threshold, 1_000_000));
  }

  lemma FixedZero()
    ensures ToFixed(0.0, 1_000_000) == 0.0
  {}

  /** A flagged day is reported with a ratio of at least 3, rounding included. */
  lemma RatioAtLeastThree(average: real, day: DailyCost)
    requires Flags(average, day)
    ensures ToFixed(day.costUsd / average, 10_000) >= 3.0
  {
    var q := day.costUsd / average;
    assert q * average == day.costUsd;
    assert q <= 3.0 ==> q * average <= 3.0 * average;
    var x := q * 10_000.0 + 0.5;
    assert x.Floor >= 30_000;
  }

  ghost predicate NonNegative(days: seq<DailyCost>) {
    forall i :: 0 <= i < |days| ==> days[i].costUsd >= 0.0
  }

  // ----- How many days of the history can be flagged -----

  lemma {:induction false} SumSplit(a: seq<DailyCost>, b: seq<DailyCost>)
    ensures Sum(a + b) == Sum(a) + Sum(b)
    decreases |a|
  {
    if a == [] {
      assert a + b == b;
    } else {
      assert (a + b)[1..] == a[1..] + b;
      SumSplit(a[1..], b);
    }
  }

  /** `n` days at `cost` each. */
  function Total(n: nat, cost: real): real {
    n as real * cost
  }

  lemma OneMore(n: nat, cost: real)
    ensures Total(n + 1, cost) == Total(n, cost) + cost && Total(0, cost) == 0.0
  {}

  lemma FlagMeans(average: real, day: DailyCost, threshold: real)
    requires Flags(average, day) && threshold == average * MULTIPLIER
    ensures day.costUsd > threshold
  {}

  /** The flagged days alone cost more than the threshold each. */
  lemma {:induction false} FlaggedCost(average: real, days: seq<DailyCost>, threshold: real)
    requires NonNegative(days) && threshold == average * MULTIPLIER
    ensures Sum(days) >= Total(|Flagged(average, days)|, threshold)
    ensures |Flagged(average, days)| > 0 ==> Sum(days) > Total(|Flagged(average, days)|, threshold)
    decreases |days|
  {
    hide Total, Flags;
    if days == [] {
      OneMore(0, threshold);
    } else {
      var k := |days| - 1;
      FlaggedCost(average, days[..k], threshold);
      SumSplit(days[..k], [days[k]]);
      assert days[..k] + [days[k]] == days && Sum([days[k]]) == days[k].costUsd;
      OneMore(|Flagged(average, days[..k])|, threshold);
      if Flags(average, days[k]) {
        FlagMeans(average, days[k], threshold);
      }
    }
  }

  lemma FewOf(history: seq<DailyCost>)
    requires NonNegative(history)
    ensures var k := |Flagged(Average(history), history)|;
            k > 0 ==> 3 * k < |history|
  {
    hide Flagged, Sum, Total;
    var average := Average(history);
    var k, n := |Flagged(average, history)| as real, |history| as real;
    if average > 0.0 {
      FlaggedCost(average, history, average * MULTIPLIER);
      assert average * n == Sum(history);
      Regroup(|Flagged(average, history)|, average);
      if k > 0.0 {
        Cancel(3.0 * k, n, average);
      }
    } else {
      NoneFlagged(average, history);
    }
  }

  lemma Regroup(k: nat, average: real)
    ensures Total(k, average * MULTIPLIER) == 3.0 * k as real * average
  {}

  /** Of the n history days that feed the average, fewer than a third can be flagged: at most 9 of 30. */
  lemma FewFlagged(days: seq<DailyCost>, today: int)
    requires NonNegative(Recent(days, today))
    ensures var history := Recent(days, today);
            var k := |Flagged(Average(history), history)|;
            k > 0 ==> 3 * k < |history| && k <= 9
  {
    hide Flagged, Sum, Average;
    FewOf(Recent(days, today));
  }

  lemma Cancel(a: real, b: real, c: real)
    requires a * c < b * c && c > 0.0
    ensures a < b
  {}

  lemma {:induction false} NoneFlagged(average: real, days: seq<DailyCost>)
    requires average <= 0.0
    ensures Flagged(average, days) == []
    decreases |days|
  {
    if days != [] {
      NoneFlagged(average, days[..|days| - 1]);
    }
  }

  // ----- Scaling -----

  function ScaledDay(day: DailyCost, c: real): DailyCost {
    DailyCost(day.date, day.costUsd * c)
  }

  function Scaled(days: seq<DailyCost>, c: real): (r: seq<DailyCost>)
    ensures |r| == |days|
    ensures forall i :: 0 <= i < |r| ==> r[i] == ScaledDay(days[i], c)
  {
    seq(|days|, i requires 0 <= i < |days| => ScaledDay(days[i], c))
  }

  lemma ScaledDayIs(day: DailyCost, c: real)
    ensures ScaledDay(day, c).date == day.date && ScaledDay(day, c).costUsd == day.costUsd * c
  {}

  lemma ScaledParts(days: seq<DailyCost>, c: real, k: nat)
    requires k <= |days|
    ensures Scaled(days, c)[k..] == Scaled(days[k..], c)
    ensures Scaled(days, c)[..k] == Scaled(days[..k], c)
  {
    hide ScaledDay;
  }

  lemma ScaledJoin(a: seq<DailyCost>, b: seq<DailyCost>, c: real)
    ensures Scaled(a + b, c) == Scaled(a, c) + Scaled(b, c)
  {
    hide ScaledDay;
  }

  lemma {:induction false} BeforeScaled(days: seq<DailyCost>, today: int, c: real)
    ensures Before(Scaled(days, c), today) == Scaled(Before(days, today), c)
    decreases |days|
  {
    hide ScaledDay;
    if days != [] {
      ScaledParts(days, c, 1);
      ScaledDayIs(days[0], c);
      BeforeScaled(days[1..], today, c);
      ScaledJoin(if days[0].date < today then [days[0]] else [], Before(days[1..], today), c);
    }
  }

  lemma {:induction false} SumScaled(days: seq<DailyCost>, c: real)
    ensures Sum(Scaled(days, c)) == Sum(days) * c
    decreases |days|
  {
    hide ScaledDay;
    if days != [] {
      ScaledParts(days, c, 1);
      ScaledDayIs(days[0], c);
      SumScaled(days[1..], c);
      Distribute(days[0].costUsd, Sum(days[1..]), c);
    }
  }

  lemma Distribute(a: real, b: real, c: real)
    ensures (a + b) * c == a * c + b * c
  {}

  lemma AverageScaled(days: seq<DailyCost>, today: int, c: real)
    ensures Average(Recent(Scaled(days, c), today)) == Average(Recent(days, today)) * c
  {
    hide ScaledDay, Before, Sum, Scaled;
    BeforeScaled(days, today, c);
    var before, history := Before(days, today), Recent(days, today);
    if |before| > ROLLING_WINDOW_DAYS {
      ScaledParts(before, c, |before| - ROLLING_WINDOW_DAYS);
    }
    assert Recent(Scaled(days, c), today) == Scaled(history, c);
    SumScaled(history, c);
    if history != [] {
      Quotient(Sum(history), c, |history| as real);
    }
  }

  lemma Quotient(s: real, c: real, n: real)
    requires n > 0.0
    ensures s * c / n == s / n * c
  {
    var q := s / n;
    assert q * n == s;
    assert q * c * n == s * c;
  }

  lemma SameFlag(average: real, day: DailyCost, c: real)
    requires c > 0.0
    ensures Flags(average * c, ScaledDay(day, c)) <==> Flags(average, day)
  {
    var x, t := day.costUsd, average * MULTIPLIER;
    assert average * c * MULTIPLIER == t * c;
    assert x > t ==> x * c > t * c;
    assert x <= t ==> x * c <= t * c;
    assert average > 0.0 ==> average * c > 0.0;
    assert average <= 0.0 ==> average * c <= 0.0;
  }

  lemma {:induction false} FlaggedScaled(average: real, days: seq<DailyCost>, c: real)
    requires c > 0.0
    ensures Flagged(average * c, Scaled(days, c)) == Scaled(Flagged(average, days), c)
    decreases |days|
  {
    hide ScaledDay, Flags;
    if days != [] {
      var k := |days| - 1;
      ScaledParts(days, c, k);
      FlaggedScaled(average, days[..k], c);
      SameFlag(average, days[k], c);
      ScaledJoin(Flagged(average, days[..k]), if Flags(average, days[k]) then [days[k]] else [], c);
    }
  }

  /** Counting in another currency flags the same days. */
  lemma ScalingFlagsSameDays(days: seq<DailyCost>, today: int, c: real)
    requires c > 0.0
    ensures Flagged(Average(Recent(Scaled(days, c), today)), Scaled(days, c))
            == Scaled(Flagged(Average(Recent(days, today)), days), c)
  {
    AverageScaled(days, today, c);
    FlaggedScaled(Average(Recent(days, today)), days, c);
  }

  /** It reports them with the same ratios. */
  lemma ScalingKeepsRatios(days: seq<DailyCost>, today: int, c: real, day: DailyCost)
    requires c > 0.0 && day in Flagged(Average(Recent(days, today)), days)
    ensures var before, after := Average(Recent(days, today)), Average(Recent(Scaled(days, c), today));
            before > 0.0 && after > 0.0 && Reported(after, ScaledDay(day, c)).ratio == Reported(before, day).ratio
  {
    hide Average, Recent, Scaled, Flagged, ToFixed, Reported, ScaledDay;
    var average := Average(Recent(days, today));
    FlaggedPositive(average, days);
    AverageScaled(days, today, c);
    SameRatio(average, day, c);
    var after := Average(Recent(Scaled(days, c), today));
    assert after == average * c;
  }

  lemma SameRatio(average: real, day: DailyCost, c: real)
    requires average > 0.0 && c > 0.0
    ensures average * c > 0.0 && Reported(average * c, ScaledDay(day, c)).ratio == Reported(average, day).ratio
  {
    hide ToFixed;
    var q := day.costUsd / average;
    assert q * average == day.costUsd;
    assert q * (average * c) == day.costUsd * c;
    assert day.costUsd * c / (average * c) == q;
    assert ScaledDay(day, c).costUsd / (average * c) == q;
    assert ToFixed(ScaledDay(day, c).costUsd / (average * c), 10_000) == ToFixed(q, 10_000);
    assert Reported(average, day).ratio == ToFixed(q, 10_000);
    assert Reported(average * c, ScaledDay(day, c)).ratio == ToFixed(q, 10_000);
  }

  // ----- Today's cost -----

  lemma {:induction false} BeforeIgnores(days: seq<DailyCost>, today: int, i: nat, cost: real)
    requires i < |days| && days[i].date >= today
    ensures Before(days[i := days[i].(costUsd := cost)], today) == Before(days, today)
    decreases |days|
  {
    var changed := days[i := days[i].(costUsd := cost)];
    if i == 0 {
      assert changed[1..] == days[1..];
    } else {
      assert changed[1..] == days[1..][i - 1 := days[1..][i - 1].(costUsd := cost)];
      BeforeIgnores(days[1..], today, i - 1, cost);
    }
  }

  /** Whatever today costs, the average, the threshold and the flag of every other day stay the same. */
  lemma TodayAffectsNoOtherDay(days: seq<DailyCost>, today: int, i: nat, cost: real, j: nat)
    requires i < |days| && days[i].date >= today && j < |days| && j != i
    ensures var changed := days[i := days[i].(costUsd := cost)];
            && Average(Recent(changed, today)) == Average(Recent(days, today))
            && (Flags(Average(Recent(changed, today)), changed[j]) <==> Flags(Average(Recent(days, today)), days[j]))
  {
    hide Before, Average, Flags;
    BeforeIgnores(days, today, i, cost);
  }
}
