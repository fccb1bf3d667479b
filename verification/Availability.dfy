/** Availability from heartbeats: the three copies of the gap loop (api/src/monitoring.ts twice,
    api/src/exports/soc2.ts) over timestamps in milliseconds, in query order. Percentages are exact
    reals; `Rounded` is the two-digit rounding of the responses. */
module Availability {
  import opened Basics

  const GAP_THRESHOLD_MS: int := 90_000
  const INTERVAL_MS: int := 30_000

  /** What one interval adds to the total gap. */
  function Excess(diff: int): int {
    if diff > GAP_THRESHOLD_MS then diff - INTERVAL_MS else 0
  }

  /** The total gap over the first `n` intervals. */
  function GapUpTo(ts: seq<int>, n: nat): int
    requires n == 0 || n < |ts|
    decreases n
  {
    if n == 0 then 0 else GapUpTo(ts, n - 1) + Excess(ts[n] - ts[n - 1])
  }

  function CountUpTo(ts: seq<int>, n: nat): nat
    requires n == 0 || n < |ts|
    decreases n
  {
    if n == 0 then 0 else CountUpTo(ts, n - 1) + if ts[n] - ts[n - 1] > GAP_THRESHOLD_MS then 1 else 0
  }

  function Intervals(ts: seq<int>): nat {
    if ts == [] then 0 else |ts| - 1
  }

  function TotalGap(ts: seq<int>): int {
    GapUpTo(ts, Intervals(ts))
  }

  function GapCount(ts: seq<int>): nat {
    CountUpTo(ts, Intervals(ts))
  }

  function Span(ts: seq<int>): int {
    if ts == [] then 0 else ts[|ts| - 1] - ts[0]
  }

  /** The uptime percentage before rounding. */
  function Uptime(ts: seq<int>): real {
    if Span(ts) > 0 then (Span(ts) - TotalGap(ts)) as real / Span(ts) as real * 100.0 else 100.0
  }

  /** `Math.round(x * 100) / 100`: the nearest hundredth, the upper one of two. */
  function Rounded(x: real): (r: real)
    ensures (r * 100.0).Floor as real == r * 100.0
    ensures -0.005 < r - x <= 0.005
  {
    (x * 100.0 + 0.5).Floor as real / 100.0
  }

  // ----- The loops -----

  datatype GapWindow = GapWindow(start: int, end: int, durationSeconds: int)

  /** A gap as reported, its length in whole seconds: `Math.round(ms / 1000)`. */
  function Gap(start: int, end: int): (g: GapWindow)
    ensures 1000 * g.durationSeconds - 500 <= end - start < 1000 * g.durationSeconds + 500
  {
    GapWindow(start, end, (end - start + 500) / 1000)
  }

  /** The gap windows of the first `n` intervals, in order. */
  function WindowsUpTo(ts: seq<int>, n: nat): seq<GapWindow>
    requires n == 0 || n < |ts|
    decreases n
  {
    if n == 0 then []
    else WindowsUpTo(ts, n - 1) + if ts[n] - ts[n - 1] > GAP_THRESHOLD_MS then [Gap(ts[n - 1], ts[n])] else []
  }

  /** The monitoring endpoint: no heartbeat reads as 0, a single one as "insufficient data". */
  method HandleAvailability(ts: seq<int>)
    returns (lastHeartbeat: Option<int>, uptime: Option<real>, gapWindows: seq<GapWindow>)
    ensures lastHeartbeat == if ts == [] then None else Some(ts[|ts| - 1])
    ensures ts == [] ==> uptime == Some(0.0) && gapWindows == []
    ensures |ts| == 1 ==> uptime == None
    ensures |ts| >= 2 ==> uptime == Some(Rounded(Uptime(ts)))
    ensures ts != [] ==> gapWindows == WindowsUpTo(ts, |ts| - 1)
    ensures Sorted(ts) && uptime.Some? ==> 0.0 <= uptime.value <= 100.0
  {
    gapWindows := [];
    if |ts| == 0 {
      return None, Some(0.0), [];
    }
    lastHeartbeat := Some(ts[|ts| - 1]);
    var totalGapMs := 0;
    for i := 1 to |ts|
      invariant totalGapMs == GapUpTo(ts, i - 1) && gapWindows == WindowsUpTo(ts, i - 1)
    {
      var diff := ts[i] - ts[i - 1];
      if diff > GAP_THRESHOLD_MS {
        gapWindows := gapWindows + [Gap(ts[i - 1], ts[i])];
        totalGapMs := totalGapMs + (diff - INTERVAL_MS);
      }
    }
    var totalSpanMs := ts[|ts| - 1] - ts[0];
    var uptimePercentage := 100.0;
    RoundedHundred();
    if totalSpanMs > 0 {
      uptimePercentage := Rounded((totalSpanMs - totalGapMs) as real / totalSpanMs as real * 100.0);
    }
    uptime := if |ts| < 2 then None else Some(uptimePercentage);
    RoundedUptime(ts);
  }

  /** The alert evaluation: compared with the threshold before any rounding. */
  method AlertAvailability(ts: seq<int>, threshold: real) returns (alert: Option<real>)
    ensures alert == if |ts| >= 2 && Uptime(ts) < threshold then Some(Rounded(Uptime(ts))) else None
    ensures Sorted(ts) && alert.Some? ==> 0.0 <= alert.value <= 100.0
  {
    RoundedUptime(ts);
    alert := None;
    if |ts| >= 2 {
      var totalGapMs := 0;
      for i := 1 to |ts|
        invariant totalGapMs == GapUpTo(ts, i - 1)
      {
        var diff := ts[i] - ts[i - 1];
        if diff > GAP_THRESHOLD_MS {
          totalGapMs := totalGapMs + (diff - INTERVAL_MS);
        }
      }
      var totalSpanMs := ts[|ts| - 1] - ts[0];
      var availability := if totalSpanMs > 0
        then (totalSpanMs - totalGapMs) as real / totalSpanMs as real * 100.0 else 100.0;
      if availability < threshold {
        alert := Some(Rounded(availability));
      }
    }
  }

  /** The SOC 2 export, over the heartbeats of its date range. */
  method Soc2Availability(ts: seq<int>) returns (gapCount: nat, availability: real)
    ensures gapCount == GapCount(ts)
    ensures availability == Rounded(Uptime(ts))
    ensures Sorted(ts) ==> 0.0 <= availability <= 100.0
  {
    RoundedUptime(ts);
    gapCount, availability := 0, 100.0;
    RoundedHundred();
    if |ts| > 0 {
      var totalGapMs := 0;
      for i := 1 to |ts|
        invariant totalGapMs == GapUpTo(ts, i - 1) && gapCount == CountUpTo(ts, i - 1)
      {
        var diff := ts[i] - ts[i - 1];
        if diff > GAP_THRESHOLD_MS {
          gapCount := gapCount + 1;
          totalGapMs := totalGapMs + (diff - INTERVAL_MS);
        }
      }
      var totalSpanMs := ts[|ts| - 1] - ts[0];
      if totalSpanMs > 0 {
        availability := Rounded((totalSpanMs - totalGapMs) as real / totalSpanMs as real * 100.0);
      }
    }
  }

  lemma RoundedHundred()
    ensures Rounded(100.0) == 100.0
  {
    assert (100.0 * 100.0 + 0.5).Floor == 10000;
  }

  // ----- One more heartbeat -----

  lemma {:induction false} SamePrefix(ts: seq<int>, t: int, n: nat)
    requires n < |ts|
    ensures GapUpTo(ts + [t], n) == GapUpTo(ts, n) && CountUpTo(ts + [t], n) == CountUpTo(ts, n)
    ensures WindowsUpTo(ts + [t], n) == WindowsUpTo(ts, n)
    decreases n
  {
    if n > 0 {
      SamePrefix(ts, t, n - 1);
    }
  }

  /** What a heartbeat adds: nothing within 90 seconds of the one before, and otherwise a gap with its two ends,
      counted as the interval less 30 seconds. */
  lemma OneMoreHeartbeat(ts: seq<int>, t: int)
    requires ts != []
    ensures var last, more := ts[|ts| - 1], ts + [t];
            if t - last > 90_000
            then && TotalGap(more) == TotalGap(ts) + (t - last - 30_000) && GapCount(more) == GapCount(ts) + 1
                 && |WindowsUpTo(more, |ts|)| == |WindowsUpTo(ts, |ts| - 1)| + 1
                 && WindowsUpTo(more, |ts|)[..|WindowsUpTo(ts, |ts| - 1)|] == WindowsUpTo(ts, |ts| - 1)
                 && WindowsUpTo(more, |ts|)[|WindowsUpTo(ts, |ts| - 1)|].start == last
                 && WindowsUpTo(more, |ts|)[|WindowsUpTo(ts, |ts| - 1)|].end == t
            else && TotalGap(more) == TotalGap(ts) && GapCount(more) == GapCount(ts)
                 && WindowsUpTo(more, |ts|) == WindowsUpTo(ts, |ts| - 1)
    ensures TotalGap([t]) == 0 && GapCount([t]) == 0 && WindowsUpTo([t], 0) == []
  {
    SamePrefix(ts, t, |ts| - 1);
  }

  /** Uptime is the share of the span outside the gaps, in percent. */
  lemma UptimeIsShare(ts: seq<int>)
    ensures ts != [] && ts[|ts| - 1] > ts[0] ==>
              Uptime(ts) * (ts[|ts| - 1] - ts[0]) as real == 100.0 * (ts[|ts| - 1] - ts[0] - TotalGap(ts)) as real
    ensures ts == [] || ts[|ts| - 1] <= ts[0] ==> Uptime(ts) == 100.0
  {
    hide TotalGap;
    if Span(ts) > 0 {
      Share((Span(ts) - TotalGap(ts)) as real, Span(ts) as real);
    }
  }

  lemma Share(part: real, whole: real)
    requires whole > 0.0
    ensures part / whole * 100.0 * whole == 100.0 * part
  {
    assert part / whole * whole == part;
  }

  // ----- Bounds -----

  lemma {:induction false} GapBound(ts: seq<int>, n: nat)
    requires Sorted(ts) && (n == 0 || n < |ts|) && ts != []
    ensures 0 <= GapUpTo(ts, n) <= ts[n] - ts[0] - INTERVAL_MS * CountUpTo(ts, n)
    ensures GapUpTo(ts, n) > 0 <==> CountUpTo(ts, n) > 0
    decreases n
  {
    if n > 0 {
      GapBound(ts, n - 1);
    }
  }

  /** The total gap is at most the span less 30 seconds per gap. */
  lemma TotalGapBound(ts: seq<int>)
    requires Sorted(ts)
    ensures 0 <= TotalGap(ts) <= Span(ts) - 30_000 * GapCount(ts)
  {
    if ts != [] {
      GapBound(ts, Intervals(ts));
    }
  }

  lemma Percent(part: int, whole: int)
    requires 0 <= part <= whole && whole > 0
    ensures 0.0 <= part as real / whole as real * 100.0 <= 100.0
    ensures part as real / whole as real * 100.0 == 100.0 <==> part == whole
    ensures part as real / whole as real * 100.0 == 0.0 <==> part == 0
  {
    var q := part as real / whole as real;
    assert q * whole as real == part as real;
    assert q > 1.0 ==> q * whole as real > whole as real;
    if q == 1.0 {
      assert part == whole;
    }
  }

  /** Uptime lies above 0 and up to 100, and is 100 exactly when there is no gap. */
  lemma UptimeBounds(ts: seq<int>)
    requires Sorted(ts)
    ensures 0.0 < Uptime(ts) <= 100.0
    ensures Uptime(ts) == 100.0 <==> GapCount(ts) == 0
  {
    TotalGapBound(ts);
    if ts != [] {
      GapBound(ts, Intervals(ts));
      if Span(ts) > 0 {
        Percent(Span(ts) - TotalGap(ts), Span(ts));
      }
    }
  }

  lemma RoundedMonotone(x: real, y: real)
    requires x <= y
    ensures Rounded(x) <= Rounded(y)
  {
    var a, b := x * 100.0 + 0.5, y * 100.0 + 0.5;
    assert a <= b;
    assert a.Floor <= b.Floor;
  }

  /** What the responses report lies between 0 and 100. */
  lemma RoundedUptime(ts: seq<int>)
    ensures Sorted(ts) ==> 0.0 <= Rounded(Uptime(ts)) <= 100.0
  {
    if Sorted(ts) {
      UptimeBounds(ts);
      assert Rounded(0.0) == 0.0 by {
        assert (0.0 * 100.0 + 0.5).Floor == 0;
      }
      RoundedHundred();
      RoundedMonotone(0.0, Uptime(ts));
      RoundedMonotone(Uptime(ts), 100.0);
    }
  }

  // ----- More heartbeats never lower the uptime -----

  /** `sparse` is what remains of `dense` at the increasing positions `at`, first and last included. */
  ghost predicate Thinned(sparse: seq<int>, dense: seq<int>, at: seq<nat>) {
    && |at| == |sparse| > 0 && |dense| > 0
    && at[0] == 0 && at[|at| - 1] == |dense| - 1
    && (forall i :: 0 <= i < |at| ==> at[i] < |dense| && sparse[i] == dense[at[i]])
    && (forall i :: 0 < i < |at| ==> at[i - 1] < at[i])
  }

  /** Splitting an interval never adds to the gap. */
  lemma {:induction false} SegmentGap(dense: seq<int>, a: nat, b: nat)
    requires Sorted(dense) && a <= b < |dense|
    ensures GapUpTo(dense, b) - GapUpTo(dense, a) <= Excess(dense[b] - dense[a])
    decreases b - a
  {
    if a < b {
      SegmentGap(dense, a, b - 1);
      assert dense[a] <= dense[b - 1] <= dense[b];
    }
  }

  lemma {:induction false} ThinnedGap(sparse: seq<int>, dense: seq<int>, at: seq<nat>, k: nat)
    requires Thinned(sparse, dense, at) && Sorted(dense) && k < |at|
    ensures GapUpTo(dense, at[k]) <= GapUpTo(sparse, k)
    decreases k
  {
    if k > 0 {
      ThinnedGap(sparse, dense, at, k - 1);
      SegmentGap(dense, at[k - 1], at[k]);
    }
  }

  lemma Ratio(a: int, b: int, whole: int)
    requires a <= b && whole > 0
    ensures a as real / whole as real * 100.0 <= b as real / whole as real * 100.0
  {
    var x, y := a as real / whole as real, b as real / whole as real;
    assert x * whole as real == a as real && y * whole as real == b as real;
    assert x > y ==> x * whole as real > y * whole as real;
  }

  /** Adding heartbeats anywhere between the first and the last never lowers the uptime, rounded or not. */
  lemma MoreHeartbeats(sparse: seq<int>, dense: seq<int>, at: seq<nat>)
    requires Thinned(sparse, dense, at) && Sorted(dense)
    ensures Uptime(sparse) <= Uptime(dense)
    ensures Rounded(Uptime(sparse)) <= Rounded(Uptime(dense))
  {
    ThinnedGap(sparse, dense, at, |at| - 1);
    assert Span(sparse) == Span(dense);
    if Span(dense) > 0 {
      Ratio(Span(sparse) - TotalGap(sparse), Span(dense) - TotalGap(dense), Span(dense));
    }
    RoundedMonotone(Uptime(sparse), Uptime(dense));
  }
}
