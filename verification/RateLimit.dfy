/** The in-memory sliding-window rate limiter (api/src/ratelimit.ts).

    The reference is a limiter that never forgets: it keeps every admission it ever granted and
    decides by counting those of the last 60 seconds. The limiter keeps per-key windows, evicts lazily
    and cleans up every hundred counted calls. `WindowsAfter` and `Granted` say what it stores and what it
    admits over any history of calls and any clock; the class is proved against them. */
module RateLimit {
  import opened Basics

  const WINDOW_MS: int := 60_000
  const CLEANUP_INTERVAL: nat := 100

  /** `NotFinite` stands for null, undefined, NaN and the infinities. */
  datatype Limit = NotFinite | Finite(value: real)

  predicate ValidLimit(limit: Limit) {
    limit.Finite? && limit.value > 0.0
  }

  /** One call with its two clock readings: on entry, and in the cleanup at its end. A call without a
      cleanup takes no second reading; the first stands for it. */
  datatype Call = Call(key: string, limit: Limit, now: int, cleanupNow: int)

  datatype Admission = Admission(key: string, at: int)

  datatype Outcome = Outcome(allowed: bool, limit: real, remaining: real, resetEpochSeconds: int)

  /** `Math.ceil(ms / 1000)`. */
  function CeilSeconds(ms: int): (s: int)
    ensures 1000 * (s - 1) < ms <= 1000 * s
  {
    (ms + 999) / 1000
  }

  /** The timestamps after `cutoff`, in order. */
  function Fresh(ts: seq<int>, cutoff: int): (r: seq<int>)
    ensures |r| <= |ts|
    decreases |ts|
  {
    if ts == [] then []
    else
      var k := |ts| - 1;
      Fresh(ts[..k], cutoff) + if ts[k] > cutoff then [ts[k]] else []
  }

  // ----- The reference: a log that never forgets -----

  function Times(log: seq<Admission>, key: string): (r: seq<int>)
    decreases |log|
  {
    if log == [] then []
    else
      var k := |log| - 1;
      Times(log[..k], key) + if log[k].key == key then [log[k].at] else []
  }

  predicate Admits(log: seq<Admission>, call: Call) {
    ValidLimit(call.limit) && |Fresh(Times(log, call.key), call.now - WINDOW_MS)| as real < call.limit.value
  }

  function LogAfter(log: seq<Admission>, call: Call): seq<Admission> {
    if Admits(log, call) then log + [Admission(call.key, call.now)] else log
  }

  /** Every admission granted over a history of calls. */
  function Replay(calls: seq<Call>): seq<Admission>
    decreases |calls|
  {
    if calls == [] then [] else LogAfter(Replay(calls[..|calls| - 1]), calls[|calls| - 1])
  }

  // ----- The limiter, as a function of its calls -----

  function Stored(windows: map<string, seq<int>>, key: string): seq<int> {
    if key in windows then windows[key] else []
  }

  /** What a counted call finds in its own window after eviction. */
  function Evicted(windows: map<string, seq<int>>, call: Call): seq<int> {
    Fresh(Stored(windows, call.key), call.now - WINDOW_MS)
  }

  predicate Allows(windows: map<string, seq<int>>, call: Call) {
    ValidLimit(call.limit) && |Evicted(windows, call)| as real < call.limit.value
  }

  /** The windows after a counted call, before any cleanup. */
  function Decided(windows: map<string, seq<int>>, call: Call): map<string, seq<int>> {
    windows[call.key := Evicted(windows, call) + if Allows(windows, call) then [call.now] else []]
  }

  /** What `periodicCleanup` leaves: every window filtered, empty ones gone. */
  function Cleaned(windows: map<string, seq<int>>, cutoff: int): map<string, seq<int>> {
    map key | key in windows && Fresh(windows[key], cutoff) != [] :: Fresh(windows[key], cutoff)
  }

  /** The windows after a call that follows `counted` counted ones. */
  function AfterCall(windows: map<string, seq<int>>, counted: nat, call: Call): map<string, seq<int>> {
    if !ValidLimit(call.limit) then windows
    else if (counted + 1) % CLEANUP_INTERVAL == 0 then Cleaned(Decided(windows, call), call.cleanupNow - WINDOW_MS)
    else Decided(windows, call)
  }

  /** Calls with a valid limit: the ones `callCount` counts. */
  function Counted(calls: seq<Call>): nat
    decreases |calls|
  {
    if calls == [] then 0
    else Counted(calls[..|calls| - 1]) + if ValidLimit(calls[|calls| - 1].limit) then 1 else 0
  }

  function WindowsAfter(calls: seq<Call>): map<string, seq<int>>
    decreases |calls|
  {
    if calls == [] then map[]
    else
      var k := |calls| - 1;
      AfterCall(WindowsAfter(calls[..k]), Counted(calls[..k]), calls[k])
  }

  /** What the limiter really admits. */
  function Granted(calls: seq<Call>): seq<Admission>
    decreases |calls|
  {
    if calls == [] then []
    else
      var k := |calls| - 1;
      Granted(calls[..k])
      + if Allows(WindowsAfter(calls[..k]), calls[k]) then [Admission(calls[k].key, calls[k].now)] else []
  }

  /** No reading is more than `back` milliseconds earlier than one taken in an earlier call. */
  ghost predicate Steady(calls: seq<Call>, back: nat) {
    forall i, j :: 0 <= i < j < |calls| ==>
      calls[i].now <= calls[j].now + back && calls[i].cleanupNow <= calls[j].now + back
  }

  /** No reading is later than `t`. */
  ghost predicate ReadBy(calls: seq<Call>, t: int) {
    forall i :: 0 <= i < |calls| ==> calls[i].now <= t && calls[i].cleanupNow <= t
  }

  lemma {:induction false} SteadyLast(calls: seq<Call>, back: nat)
    requires Steady(calls, back) && calls != []
    ensures Steady(calls[..|calls| - 1], back)
    ensures ReadBy(calls[..|calls| - 1], calls[|calls| - 1].now + back)
  {}

  lemma {:induction false} HistoryGrows(calls: seq<Call>, call: Call)
    ensures (calls + [call])[..|calls|] == calls
    ensures Replay(calls + [call]) == LogAfter(Replay(calls), call)
    ensures Counted(calls + [call]) == Counted(calls) + if ValidLimit(call.limit) then 1 else 0
    ensures WindowsAfter(calls + [call]) == AfterCall(WindowsAfter(calls), Counted(calls), call)
    ensures Granted(calls + [call])
            == Granted(calls) + if Allows(WindowsAfter(calls), call) then [Admission(call.key, call.now)] else []
  {
    assert (calls + [call])[..|calls|] == calls;
  }

  // ----- Filters and timestamp lists -----

  ghost predicate AllAtMost(ts: seq<int>, bound: int) {
    forall i :: 0 <= i < |ts| ==> ts[i] <= bound
  }

  lemma {:induction false} FreshConcat(a: seq<int>, b: seq<int>, cutoff: int)
    ensures Fresh(a + b, cutoff) == Fresh(a, cutoff) + Fresh(b, cutoff)
    decreases |b|
  {
    if b == [] {
      assert a + b == a;
    } else {
      var k := |b| - 1;
      assert (a + b)[..|a + b| - 1] == a + b[..k];
      FreshConcat(a, b[..k], cutoff);
    }
  }

  lemma AllAtMostLast(ts: seq<int>, bound: int)
    requires ts != []
    ensures AllAtMost(ts, bound) <==> AllAtMost(ts[..|ts| - 1], bound) && ts[|ts| - 1] <= bound
  {
    assert forall i :: 0 <= i < |ts| - 1 ==> ts[..|ts| - 1][i] == ts[i];
  }

  lemma {:induction false} FreshNone(ts: seq<int>, cutoff: int)
    ensures AllAtMost(ts, cutoff) <==> Fresh(ts, cutoff) == []
    decreases |ts|
  {
    if ts != [] {
      AllAtMostLast(ts, cutoff);
      hide AllAtMost;
      FreshNone(ts[..|ts| - 1], cutoff);
    }
  }

  lemma {:induction false} FreshAll(ts: seq<int>, cutoff: int)
    requires forall i :: 0 <= i < |ts| ==> ts[i] > cutoff
    ensures Fresh(ts, cutoff) == ts
    decreases |ts|
  {
    if ts != [] {
      FreshAll(ts[..|ts| - 1], cutoff);
    }
  }

  lemma {:induction false} FreshHas(ts: seq<int>, cutoff: int, t: int)
    ensures t in Fresh(ts, cutoff) <==> t in ts && t > cutoff
    decreases |ts|
  {
    if ts != [] {
      var k := |ts| - 1;
      FreshHas(ts[..k], cutoff, t);
      assert ts == ts[..k] + [ts[k]];
    }
  }

  /** An earlier, milder filter makes no difference. */
  lemma {:induction false} FreshTwice(ts: seq<int>, cutoff: int, later: int)
    requires cutoff <= later
    ensures Fresh(Fresh(ts, cutoff), later) == Fresh(ts, later)
    ensures |Fresh(ts, later)| <= |Fresh(ts, cutoff)|
    decreases |ts|
  {
    if ts != [] {
      var k := |ts| - 1;
      FreshTwice(ts[..k], cutoff, later);
      FreshConcat(Fresh(ts[..k], cutoff), if ts[k] > cutoff then [ts[k]] else [], later);
      assert Fresh([ts[k]], later) == if ts[k] > later then [ts[k]] else [];
      assert Fresh(ts[..k], cutoff) + [] == Fresh(ts[..k], cutoff);
    }
  }

  lemma {:induction false} FreshSorted(ts: seq<int>, cutoff: int, bound: int)
    requires Sorted(ts) && AllAtMost(ts, bound)
    ensures Sorted(Fresh(ts, cutoff)) && AllAtMost(Fresh(ts, cutoff), bound)
    decreases |ts|
  {
    if ts != [] {
      var k := |ts| - 1;
      FreshSorted(ts[..k], cutoff, ts[k]);
    }
  }

  lemma {:induction false} TimesAreAdmissions(log: seq<Admission>, key: string, t: int)
    ensures t in Times(log, key) <==> Admission(key, t) in log
    decreases |log|
  {
    if log != [] {
      var k := |log| - 1;
      TimesAreAdmissions(log[..k], key, t);
      assert log == log[..k] + [log[k]];
    }
  }

  lemma TimesGrow(log: seq<Admission>, more: Admission, key: string)
    ensures Times(log + [more], key) == Times(log, key) + if more.key == key then [more.at] else []
  {
    assert (log + [more])[..|log|] == log;
  }

  // ----- What eviction and cleanup keep -----

  lemma CleanedStored(windows: map<string, seq<int>>, cutoff: int, key: string)
    ensures Stored(Cleaned(windows, cutoff), key) == Fresh(Stored(windows, key), cutoff)
  {}

  /** What a call makes of one key's window, before any cleanup. */
  function Touched(windows: map<string, seq<int>>, call: Call, key: string): seq<int> {
    if key == call.key && ValidLimit(call.limit)
    then Evicted(windows, call) + if Allows(windows, call) then [call.now] else []
    else Stored(windows, key)
  }

  lemma StoredAfter(windows: map<string, seq<int>>, counted: nat, call: Call, key: string)
    ensures Stored(AfterCall(windows, counted, call), key)
            == if ValidLimit(call.limit) && (counted + 1) % CLEANUP_INTERVAL == 0
               then Fresh(Touched(windows, call, key), call.cleanupNow - WINDOW_MS)
               else Touched(windows, call, key)
  {
    hide Fresh, Evicted, Allows;
    CleanedStored(Decided(windows, call), call.cleanupNow - WINDOW_MS, key);
  }

  /** Beyond any cutoff that lies 60 seconds behind all readings, the window of a key has exactly the
      admissions of that key: eviction and cleanup lose nothing there, under any clock. */
  lemma {:induction false} Retains(calls: seq<Call>, key: string, cutoff: int)
    requires ReadBy(calls, cutoff + WINDOW_MS)
    ensures Fresh(Stored(WindowsAfter(calls), key), cutoff) == Fresh(Times(Granted(calls), key), cutoff)
    decreases |calls|
  {
    hide Fresh, Times, Evicted, AfterCall, Allows;
    if calls != [] {
      var k := |calls| - 1;
      var call, windows, log := calls[k], WindowsAfter(calls[..k]), Granted(calls[..k]);
      Retains(calls[..k], key, cutoff);
      TouchRetains(windows, log, call, key, cutoff);
      StoredAfter(windows, Counted(calls[..k]), call, key);
      FreshTwice(Touched(windows, call, key), call.cleanupNow - WINDOW_MS, cutoff);
    } else {
      assert Stored(WindowsAfter(calls), key) == Times(Granted(calls), key) by {
        NoTimes(key);
      }
    }
  }

  lemma NoTimes(key: string)
    ensures Times([], key) == []
  {}

  lemma {:induction false} TouchRetains(windows: map<string, seq<int>>, log: seq<Admission>, call: Call,
                                        key: string, cutoff: int)
    requires Fresh(Stored(windows, key), cutoff) == Fresh(Times(log, key), cutoff)
    requires call.now - WINDOW_MS <= cutoff
    ensures var next := log + if Allows(windows, call) then [Admission(call.key, call.now)] else [];
            Fresh(Touched(windows, call, key), cutoff) == Fresh(Times(next, key), cutoff)
  {
    hide Fresh, Times, Allows;
    var added := if Allows(windows, call) && call.key == key then [call.now] else [];
    TimesGrow(log, Admission(call.key, call.now), key);
    FreshConcat(Times(log, key), added, cutoff);
    FreshConcat(Evicted(windows, call), added, cutoff);
    FreshTwice(Stored(windows, call.key), call.now - WINDOW_MS, cutoff);
    AllowsMeans(windows, call);
    assert log + [] == log && Times(log, key) + [] == Times(log, key);
  }

  lemma AllowsMeans(windows: map<string, seq<int>>, call: Call)
    ensures Allows(windows, call)
            <==> ValidLimit(call.limit)
                 && |Fresh(Stored(windows, call.key), call.now - WINDOW_MS)| as real < call.limit.value
  {}

  lemma AfterCallMeans(windows: map<string, seq<int>>, counted: nat, call: Call)
    ensures AfterCall(windows, counted, call)
            == if !ValidLimit(call.limit) then windows
               else if (counted + 1) % CLEANUP_INTERVAL == 0
               then Cleaned(Decided(windows, call), call.cleanupNow - WINDOW_MS)
               else Decided(windows, call)
  {}

  /** While no reading was later than the caller's, evicting before the decision does not change the count
      the full log gives. */
  lemma {:induction false} EvictionUnobservable(calls: seq<Call>, call: Call)
    requires ReadBy(calls, call.now)
    ensures Evicted(WindowsAfter(calls), call) == Fresh(Times(Granted(calls), call.key), call.now - WINDOW_MS)
  {
    hide Fresh, Times;
    Retains(calls, call.key, call.now - WINDOW_MS);
  }

  /** While the clock never goes back, the limiter admits exactly what the limiter that never forgets does. */
  lemma {:induction false} AgreesWithLog(calls: seq<Call>)
    requires Steady(calls, 0)
    ensures Granted(calls) == Replay(calls)
    decreases |calls|
  {
    if calls != [] {
      var k := |calls| - 1;
      SteadyLast(calls, 0);
      AgreesWithLog(calls[..k]);
      EvictionUnobservable(calls[..k], calls[k]);
      hide Evicted, Fresh, Times, WindowsAfter;
    }
  }

  // ----- The stored windows -----

  lemma {:induction false} StoredIsGranted(calls: seq<Call>, key: string, t: int)
    ensures t in Stored(WindowsAfter(calls), key) ==> Admission(key, t) in Granted(calls)
    decreases |calls|
  {
    hide Fresh, Evicted, AfterCall, Allows;
    if calls != [] {
      var k := |calls| - 1;
      var call, windows := calls[k], WindowsAfter(calls[..k]);
      StoredIsGranted(calls[..k], key, t);
      StoredAfter(windows, Counted(calls[..k]), call, key);
      FreshHas(Touched(windows, call, key), call.cleanupNow - WINDOW_MS, t);
      EvictedHas(windows, call, t);
    }
  }

  lemma EvictedHas(windows: map<string, seq<int>>, call: Call, t: int)
    ensures t in Evicted(windows, call) ==> t in Stored(windows, call.key)
  {
    FreshHas(Stored(windows, call.key), call.now - WINDOW_MS, t);
  }

  lemma {:induction false} NoEmptyWindow(calls: seq<Call>, key: string)
    requires key in WindowsAfter(calls)
    ensures WindowsAfter(calls)[key] != []
    decreases |calls|
  {
    if calls != [] {
      var k := |calls| - 1;
      if key in WindowsAfter(calls[..k]) {
        NoEmptyWindow(calls[..k], key);
      }
      hide Fresh;
    }
  }

  lemma TouchedSorted(windows: map<string, seq<int>>, call: Call, key: string)
    requires Sorted(Stored(windows, key)) && AllAtMost(Stored(windows, key), call.now)
    ensures Sorted(Touched(windows, call, key)) && AllAtMost(Touched(windows, call, key), call.now)
  {
    hide Fresh, Allows;
    FreshSorted(Stored(windows, key), call.now - WINDOW_MS, call.now);
  }

  lemma {:induction false} WindowIsSorted(calls: seq<Call>, key: string, t: int)
    requires Steady(calls, 0) && ReadBy(calls, t)
    ensures Sorted(Stored(WindowsAfter(calls), key)) && AllAtMost(Stored(WindowsAfter(calls), key), t)
    decreases |calls|
  {
    if calls != [] {
      hide Fresh, AfterCall, Touched, ReadBy, Steady, Stored, Sorted;
      var k := |calls| - 1;
      var call, windows := calls[k], WindowsAfter(calls[..k]);
      LastRead(calls, t);
      SteadyLast(calls, 0);
      WindowIsSorted(calls[..k], key, call.now);
      TouchedSorted(windows, call, key);
      StoredAfter(windows, Counted(calls[..k]), call, key);
      FreshSorted(Touched(windows, call, key), call.cleanupNow - WINDOW_MS, call.now);
    }
  }

  lemma {:induction false} LastRead(calls: seq<Call>, t: int)
    requires ReadBy(calls, t) && calls != []
    ensures calls[|calls| - 1].now <= t && calls[|calls| - 1].cleanupNow <= t
  {}

  /** Under any clock a stored window is non-empty and holds admissions of its own key only; while the clock
      never goes back it is sorted. */
  lemma {:induction false} StoredWindow(calls: seq<Call>, key: string, t: int)
    requires key in WindowsAfter(calls)
    ensures WindowsAfter(calls)[key] != []
    ensures t in WindowsAfter(calls)[key] ==> Admission(key, t) in Granted(calls)
    ensures Steady(calls, 0) ==> Sorted(WindowsAfter(calls)[key])
  {
    hide WindowsAfter, Granted;
    NoEmptyWindow(calls, key);
    StoredIsGranted(calls, key, t);
    if Steady(calls, 0) {
      var latest := LatestReading(calls);
      WindowIsSorted(calls, key, latest);
    }
  }

  lemma {:induction false} LatestReading(calls: seq<Call>) returns (t: int)
    ensures ReadBy(calls, t)
    decreases |calls|
  {
    t := 0;
    if calls != [] {
      var last := calls[|calls| - 1];
      t := LatestReading(calls[..|calls| - 1]);
      t := if t < last.now then last.now else t;
      t := if t < last.cleanupNow then last.cleanupNow else t;
    }
  }

  // ----- The number of stored keys -----

  /** The keys with an admission in the 60 seconds up to `now`. */
  function ActiveKeys(log: seq<Admission>, now: int): set<string> {
    set a | a in log && a.at > now - WINDOW_MS :: a.key
  }

  /** The last call runs the cleanup. */
  predicate CleansUp(calls: seq<Call>)
    requires calls != []
  {
    ValidLimit(calls[|calls| - 1].limit) && Counted(calls) % CLEANUP_INTERVAL == 0
  }

  /** The keys that were active when the cleanup last ran. */
  function KeysAtCleanup(calls: seq<Call>): set<string>
    decreases |calls|
  {
    if calls == [] then {}
    else if CleansUp(calls) then ActiveKeys(Granted(calls), calls[|calls| - 1].cleanupNow)
    else KeysAtCleanup(calls[..|calls| - 1])
  }

  lemma {:induction false} ActiveHasFresh(log: seq<Admission>, key: string, now: int)
    ensures key in ActiveKeys(log, now) <==> !AllAtMost(Times(log, key), now - WINDOW_MS)
    decreases |log|
  {
    if log != [] {
      var k := |log| - 1;
      ActiveHasFresh(log[..k], key, now);
      assert log == log[..k] + [log[k]];
      assert key in ActiveKeys(log, now)
        <==> key in ActiveKeys(log[..k], now) || (log[k].key == key && log[k].at > now - WINDOW_MS);
      hide AllAtMost, ActiveKeys;
      if log[k].key == key {
        var after := Times(log, key);
        AllAtMostLast(after, now - WINDOW_MS);
        assert after[..|after| - 1] == Times(log[..k], key);
      }
    }
  }

  lemma GrantedIsActive(log: seq<Admission>, key: string, t: int, now: int)
    requires Admission(key, t) in log && t > now - WINDOW_MS
    ensures key in ActiveKeys(log, now)
  {}

  lemma {:induction false} KeptIsActive(calls: seq<Call>, key: string)
    requires calls != [] && CleansUp(calls) && key in WindowsAfter(calls)
    ensures key in ActiveKeys(Granted(calls), calls[|calls| - 1].cleanupNow)
  {
    var k := |calls| - 1;
    var call, before := calls[k], WindowsAfter(calls[..k]);
    assert WindowsAfter(calls) == AfterCall(before, Counted(calls[..k]), call);
    assert Counted(calls) == Counted(calls[..k]) + 1;
    hide Fresh, Touched, WindowsAfter, Granted, ActiveKeys, AfterCall, Counted;
    NoEmptyWindow(calls, key);
    var t := WindowsAfter(calls)[key][0];
    assert t in Stored(WindowsAfter(calls), key);
    StoredIsGranted(calls, key, t);
    StoredAfter(before, Counted(calls[..k]), call, key);
    FreshHas(Touched(before, call, key), call.cleanupNow - WINDOW_MS, t);
    GrantedIsActive(Granted(calls), key, t, call.cleanupNow);
  }

  lemma {:induction false} ActiveIsKept(calls: seq<Call>, key: string, now: int)
    requires ReadBy(calls, now) && key in ActiveKeys(Granted(calls), now)
    ensures key in WindowsAfter(calls)
  {
    hide WindowsAfter, Granted, ActiveKeys, Times;
    ActiveHasFresh(Granted(calls), key, now);
    FreshNone(Times(Granted(calls), key), now - WINDOW_MS);
    Retains(calls, key, now - WINDOW_MS);
  }

  /** After a cleanup only keys active at its reading are stored, under any clock; and all of them are
      unless an earlier reading was later. */
  lemma {:induction false} CleanedKeys(calls: seq<Call>)
    requires calls != [] && CleansUp(calls)
    ensures var now := calls[|calls| - 1].cleanupNow;
            && WindowsAfter(calls).Keys <= ActiveKeys(Granted(calls), now)
            && (ReadBy(calls, now) ==> WindowsAfter(calls).Keys == ActiveKeys(Granted(calls), now))
  {
    hide WindowsAfter, Granted, ActiveKeys, CleansUp;
    var now := calls[|calls| - 1].cleanupNow;
    forall key | key in WindowsAfter(calls) ensures key in ActiveKeys(Granted(calls), now) {
      KeptIsActive(calls, key);
    }
    forall key | ReadBy(calls, now) && key in ActiveKeys(Granted(calls), now) ensures key in WindowsAfter(calls) {
      ActiveIsKept(calls, key, now);
    }
  }

  lemma SubsetSize<T>(a: set<T>, b: set<T>)
    requires a <= b
    ensures |a| <= |b|
  {
    assert b == a + (b - a);
  }

  lemma OneMoreKey(windows: map<string, seq<int>>, key: string, ts: seq<int>)
    ensures |windows[key := ts]| <= |windows| + 1
  {
    assert windows[key := ts].Keys == windows.Keys + {key};
  }

  /** Under any clock the stored keys never exceed the keys active at the last cleanup plus the counted
      calls since, of which there are fewer than 100. */
  lemma {:induction false} KeyBound(calls: seq<Call>)
    ensures |WindowsAfter(calls)| <= |KeysAtCleanup(calls)| + Counted(calls) % 100
    decreases |calls|
  {
    if calls != [] {
      var k := |calls| - 1;
      hide Evicted, ActiveKeys, Granted, Cleaned;
      if CleansUp(calls) {
        CleanedKeys(calls);
        SubsetSize(WindowsAfter(calls).Keys, KeysAtCleanup(calls));
        assert |WindowsAfter(calls)| == |WindowsAfter(calls).Keys|;
      } else {
        KeyBound(calls[..k]);
        if ValidLimit(calls[k].limit) {
          var before := WindowsAfter(calls[..k]);
          OneMoreKey(before, calls[k].key, Decided(before, calls[k])[calls[k].key]);
        }
      }
    }
  }

  // ----- What a call reports -----

  /** The count a call reports is the one the full log gives, while the clock does not go back. */
  lemma {:induction false} OwnWindowAfter(calls: seq<Call>, call: Call)
    requires ReadBy(calls, call.now) && call.now <= call.cleanupNow && ValidLimit(call.limit)
    ensures var all := calls + [call];
            Stored(WindowsAfter(all), call.key)
            == Fresh(Times(Granted(all), call.key),
                     (if Counted(all) % CLEANUP_INTERVAL == 0 then call.cleanupNow else call.now) - WINDOW_MS)
  {
    hide Fresh, Times, AfterCall, Allows, WindowsAfter, Granted, Counted, ReadBy;
    var all, windows := calls + [call], WindowsAfter(calls);
    HistoryGrows(calls, call);
    StoredAfter(windows, Counted(calls), call, call.key);
    Retains(calls, call.key, call.now - WINDOW_MS);
    TouchRetains(windows, Granted(calls), call, call.key, call.now - WINDOW_MS);
    TouchedIsFresh(windows, call);
    assert Granted(calls) + [] == Granted(calls);
    if Counted(all) % CLEANUP_INTERVAL == 0 {
      FreshTwice(Touched(windows, call, call.key), call.now - WINDOW_MS, call.cleanupNow - WINDOW_MS);
      FreshTwice(Times(Granted(all), call.key), call.now - WINDOW_MS, call.cleanupNow - WINDOW_MS);
    }
  }

  lemma {:induction false} TouchedIsFresh(windows: map<string, seq<int>>, call: Call)
    requires ValidLimit(call.limit)
    ensures Fresh(Touched(windows, call, call.key), call.now - WINDOW_MS) == Touched(windows, call, call.key)
  {
    hide Allows, Fresh, Stored;
    assert Fresh([], call.now - WINDOW_MS) == [] by {
      FreshAll([], call.now - WINDOW_MS);
    }
    var cutoff := call.now - WINDOW_MS;
    FreshTwice(Stored(windows, call.key), cutoff, cutoff);
    FreshConcat(Evicted(windows, call), if Allows(windows, call) then [call.now] else [], cutoff);
    FreshAll([call.now], cutoff);
  }

  /** While the clock has not gone back, what a call decides and reports is what the full log gives. */
  lemma {:induction false} CallAgrees(calls: seq<Call>, call: Call)
    requires Steady(calls + [call], 0)
    ensures Allows(WindowsAfter(calls), call) <==> Admits(Replay(calls), call)
    ensures Granted(calls + [call]) == Replay(calls + [call])
    ensures ValidLimit(call.limit) && call.now <= call.cleanupNow ==>
              var all := calls + [call];
              Stored(WindowsAfter(all), call.key)
              == Fresh(Times(Granted(all), call.key),
                       (if Counted(all) % CLEANUP_INTERVAL == 0 then call.cleanupNow else call.now) - WINDOW_MS)
  {
    hide Fresh, Times, WindowsAfter, Granted, Replay, Steady, Counted, ReadBy;
    assert (calls + [call])[..|calls|] == calls;
    SteadyLast(calls + [call], 0);
    AgreesWithLog(calls);
    AgreesWithLog(calls + [call]);
    EvictionUnobservable(calls, call);
    if ValidLimit(call.limit) && call.now <= call.cleanupNow {
      OwnWindowAfter(calls, call);
    }
  }

  /** The eviction step of the code, and the two ways on from it. */
  lemma DecidedMeans(windows: map<string, seq<int>>, call: Call, evicted: map<string, seq<int>>)
    requires ValidLimit(call.limit)
    requires evicted == windows[call.key := Fresh(Stored(windows, call.key), call.now - WINDOW_MS)]
    ensures Decided(windows, call)
            == if Allows(windows, call) then evicted[call.key := evicted[call.key] + [call.now]] else evicted
    ensures Allows(windows, call) <==> |evicted[call.key]| as real < call.limit.value
  {
    hide Fresh;
    assert Evicted(windows, call) + [] == Evicted(windows, call);
  }

  // ----- The limiter -----

  class RateLimiter {
    var windows: map<string, seq<int>>
    var callCount: nat
    /** The calls since creation or the last reset, and what they were granted. */
    ghost var history: seq<Call>
    ghost var granted: seq<Admission>

    ghost predicate Valid()
      reads this
    {
      && callCount == Counted(history)
      && windows == WindowsAfter(history)
      && granted == Granted(history)
    }

    constructor ()
      ensures Valid() && history == [] && granted == []
    {
      windows, callCount, history, granted := map[], 0, [], [];
    }

    method ResetRateLimits()
      modifies this
      ensures Valid() && history == [] && granted == []
    {
      windows, callCount, history, granted := map[], 0, [], [];
    }

    method PeriodicCleanup(now: int)
      modifies `windows, `callCount
      ensures callCount == old(callCount) + 1
      ensures windows == if callCount % CLEANUP_INTERVAL == 0
                         then Cleaned(old(windows), now - WINDOW_MS) else old(windows)
    {
      callCount := callCount + 1;
      if callCount % CLEANUP_INTERVAL != 0 {
        return;
      }
      var cutoff := now - WINDOW_MS;
      ghost var before := windows;
      var todo := windows.Keys;
      while todo != {}
        invariant todo <= windows.Keys && callCount == old(callCount) + 1
        invariant forall key :: key in windows ==> key in before
        invariant forall key :: key in todo ==> windows[key] == before[key]
        invariant forall key :: key in before && key !in todo ==>
          (key in windows <==> key in Cleaned(before, cutoff))
          && (key in windows ==> windows[key] == Cleaned(before, cutoff)[key])
        decreases todo
      {
        var key :| key in todo;
        todo := todo - {key};
        windows := windows[key := Fresh(windows[key], cutoff)];
        if |windows[key]| == 0 {
          windows := windows - {key};
        }
      }
    }

    /** The window of a key is created when it is missing, and filtered. */
    method Evict(keyId: string, windowStart: int)
      modifies `windows
      ensures windows == old(windows)[keyId := Fresh(Stored(old(windows), keyId), windowStart)]
    {
      if keyId !in windows {
        windows := windows[keyId := []];
      }
      windows := windows[keyId := Fresh(windows[keyId], windowStart)];
    }

    /** `now` is the reading on entry, `cleanupNow` the one the cleanup takes if it runs. What one call does
        holds under any clock; agreement with the full log needs a clock that never went back. */
    method CheckRateLimit(keyId: string, limitRpm: Limit, now: int, cleanupNow: int) returns (result: Outcome)
      requires Valid()
      modifies this
      ensures Valid() && history == old(history) + [Call(keyId, limitRpm, now, cleanupNow)]
      ensures granted == old(granted) + if result.allowed then [Admission(keyId, now)] else []
      ensures windows == AfterCall(old(windows), Counted(old(history)), Call(keyId, limitRpm, now, cleanupNow))
      ensures result.allowed <==>
                && limitRpm.Finite? && limitRpm.value > 0.0
                && |Fresh(Stored(old(windows), keyId), now - 60_000)| as real < limitRpm.value
      ensures Steady(history, 0) ==>
                (result.allowed <==> Admits(Replay(old(history)), Call(keyId, limitRpm, now, cleanupNow)))
                && granted == Replay(history)
      ensures result.resetEpochSeconds == CeilSeconds(now + 60_000)
      ensures result.limit == if limitRpm.Finite? && limitRpm.value > 0.0 then limitRpm.value else 0.0
      ensures result.remaining
              == if result.allowed then limitRpm.value - |Stored(windows, keyId)| as real else 0.0
      ensures Steady(history, 0) && now <= cleanupNow && result.allowed ==>
                result.remaining == limitRpm.value
                  - |Fresh(Times(granted, keyId),
                           (if callCount % CLEANUP_INTERVAL == 0 then cleanupNow else now) - WINDOW_MS)| as real
    {
      hide Fresh, Times, Replay, Counted, WindowsAfter, Granted, Steady, Cleaned, Decided;
      hide Admits, Allows, AfterCall, Evicted, Stored, LogAfter, CeilSeconds;
      ghost var call := Call(keyId, limitRpm, now, cleanupNow);
      HistoryGrows(history, call);
      if Steady(history + [call], 0) {
        CallAgrees(history, call);
      }
      AllowsMeans(windows, call);
      AfterCallMeans(windows, callCount, call);
      if !ValidLimit(limitRpm) {
        history := history + [call];
        return Outcome(false, 0.0, 0.0, CeilSeconds(now + WINDOW_MS));
      }
      var windowStart := now - WINDOW_MS;
      ghost var before := windows;
      Evict(keyId, windowStart);
      DecidedMeans(before, call, windows);
      var resetEpochSeconds := CeilSeconds(now + WINDOW_MS);
      history := history + [call];
      if |windows[keyId]| as real >= limitRpm.value {
        PeriodicCleanup(cleanupNow);
        return Outcome(false, limitRpm.value, 0.0, resetEpochSeconds);
      }
      windows := windows[keyId := windows[keyId] + [now]];
      granted := granted + [Admission(keyId, now)];
      PeriodicCleanup(cleanupNow);
      result := Outcome(true, limitRpm.value, limitRpm.value - |Stored(windows, keyId)| as real, resetEpochSeconds);
    }
  }

  // ----- What every run of the limiter guarantees -----

  /** The admissions of `key` in the half-open window of `length` milliseconds that starts at `from`. */
  function InWindow(log: seq<Admission>, key: string, from: int, length: int): nat
    decreases |log|
  {
    if log == [] then 0
    else
      var k := |log| - 1;
      InWindow(log[..k], key, from, length)
      + if log[k].key == key && from <= log[k].at < from + length then 1 else 0
  }

  lemma InWindowGrows(log: seq<Admission>, more: Admission, key: string, from: int, length: int)
    ensures InWindow(log + [more], key, from, length)
            == InWindow(log, key, from, length) + if more.key == key && from <= more.at < from + length then 1 else 0
  {
    assert (log + [more])[..|log|] == log;
  }

  lemma {:induction false} WindowWithinFresh(log: seq<Admission>, key: string, from: int, length: int, cutoff: int)
    requires cutoff < from
    ensures InWindow(log, key, from, length) <= |Fresh(Times(log, key), cutoff)|
    decreases |log|
  {
    if log != [] {
      var k := |log| - 1;
      WindowWithinFresh(log[..k], key, from, length, cutoff);
      FreshConcat(Times(log[..k], key), if log[k].key == key then [log[k].at] else [], cutoff);
      if log[k].key == key && log[k].at > cutoff {
        FreshAll([log[k].at], cutoff);
      }
      assert Times(log[..k], key) + [] == Times(log[..k], key);
    }
  }

  /** No call for `key` carries a limit above `most`. */
  ghost predicate LimitsAtMost(calls: seq<Call>, key: string, most: nat) {
    forall i :: 0 <= i < |calls| && calls[i].key == key && ValidLimit(calls[i].limit)
      ==> calls[i].limit.value <= most as real
  }

  /** A call that is allowed finds fewer admissions of its key than its limit in any window it falls into. */
  lemma {:induction false} AllowedHasRoom(calls: seq<Call>, call: Call, from: int, length: int, back: nat)
    requires ReadBy(calls, call.now + back) && Allows(WindowsAfter(calls), call)
    requires from <= call.now < from + length && length + back <= WINDOW_MS
    ensures InWindow(Granted(calls), call.key, from, length) as real < call.limit.value
  {
    hide Fresh, Times, InWindow, WindowsAfter, Granted, ReadBy;
    var cutoff := call.now + back - WINDOW_MS;
    Retains(calls, call.key, cutoff);
    FreshTwice(Stored(WindowsAfter(calls), call.key), call.now - WINDOW_MS, cutoff);
    WindowWithinFresh(Granted(calls), call.key, from, length, cutoff);
  }

  /** Whatever the keys and limits, if readings go back by at most `back`, no window that is shorter than 60
      seconds by that much ever holds more admissions of a key than the largest limit it was called with. */
  lemma {:induction false} SteadyBound(calls: seq<Call>, key: string, from: int, length: int, back: nat, most: nat)
    requires Steady(calls, back) && LimitsAtMost(calls, key, most) && length + back <= WINDOW_MS
    ensures InWindow(Granted(calls), key, from, length) <= most
    decreases |calls|
  {
    if calls != [] {
      var k := |calls| - 1;
      var call, log := calls[k], Granted(calls[..k]);
      hide InWindow, WindowsAfter, ReadBy, Steady, Allows;
      SteadyLast(calls, back);
      SteadyBound(calls[..k], key, from, length, back, most);
      InWindowGrows(log, Admission(call.key, call.now), key, from, length);
      AllowsMeans(WindowsAfter(calls[..k]), call);
      if Allows(WindowsAfter(calls[..k]), call) && call.key == key && from <= call.now < from + length {
        AllowedHasRoom(calls[..k], call, from, length, back);
        assert call.limit.value <= most as real;
        assert InWindow(log, key, from, length) as real < most as real;
      }
      assert log + [] == log;
    }
  }

  /** While the clock never goes back, no half-open 60-second window of the run holds more admissions of a
      key than the largest limit it was called with. */
  lemma WindowBound(r: RateLimiter, key: string, from: int, most: nat)
    requires r.Valid() && Steady(r.history, 0) && LimitsAtMost(r.history, key, most)
    ensures InWindow(r.granted, key, from, 60_000) <= most
  {
    SteadyBound(r.history, key, from, WINDOW_MS, 0, most);
  }

  lemma {:induction false} ClosedWithinTwo(log: seq<Admission>, key: string, from: int)
    ensures InWindow(log, key, from, WINDOW_MS + 1)
            <= InWindow(log, key, from, WINDOW_MS) + InWindow(log, key, from + 1, WINDOW_MS)
    decreases |log|
  {
    if log != [] {
      ClosedWithinTwo(log[..|log| - 1], key, from);
    }
  }

  /** A closed window, which reaches one instant further, holds at most twice the limit. */
  lemma ClosedWindowBound(r: RateLimiter, key: string, from: int, most: nat)
    requires r.Valid() && Steady(r.history, 0) && LimitsAtMost(r.history, key, most)
    ensures InWindow(r.granted, key, from, 60_001) <= 2 * most
  {
    ClosedWithinTwo(r.granted, key, from);
    WindowBound(r, key, from, most);
    WindowBound(r, key, from + 1, most);
  }

  // ----- Runs that reach the bounds -----

  /** `n` calls for one key at one instant. */
  function Burst(key: string, limit: nat, at: int, n: nat): (calls: seq<Call>)
    ensures |calls| == n
  {
    seq(n, i => Call(key, Finite(limit as real), at, at))
  }

  lemma {:induction false} BurstGrows(key: string, limit: nat, at: int, n: nat)
    ensures Burst(key, limit, at, n + 1) == Burst(key, limit, at, n) + [Call(key, Finite(limit as real), at, at)]
    ensures Burst(key, limit, at, 0) == []
  {}

  /** One more call of a burst: there is still room. */
  lemma {:induction false} OneMoreOfBurst(calls: seq<Call>, call: Call, n: nat)
    requires ReadBy(calls, call.now) && ValidLimit(call.limit) && n as real < call.limit.value
    requires |Fresh(Times(Granted(calls), call.key), call.now - WINDOW_MS)| == n
    ensures Granted(calls + [call]) == Granted(calls) + [Admission(call.key, call.now)]
    ensures |Fresh(Times(Granted(calls + [call]), call.key), call.now - WINDOW_MS)| == n + 1
  {
    hide Fresh, Times, Granted, WindowsAfter, ReadBy;
    EvictionUnobservable(calls, call);
    HistoryGrows(calls, call);
    TimesGrow(Granted(calls), Admission(call.key, call.now), call.key);
    FreshConcat(Times(Granted(calls), call.key), [call.now], call.now - WINDOW_MS);
    FreshAll([call.now], call.now - WINDOW_MS);
  }

  /** After `before`, in which nothing is left of the key, a burst of up to its limit is admitted. */
  lemma {:induction false} BurstIsGranted(before: seq<Call>, key: string, limit: nat, at: int, n: nat)
    requires n <= limit && ReadBy(before, at)
    requires Fresh(Times(Granted(before), key), at - WINDOW_MS) == []
    ensures Granted(before + Burst(key, limit, at, n)) == Granted(before) + Repeated(key, at, n)
    ensures |Fresh(Times(Granted(before + Burst(key, limit, at, n)), key), at - WINDOW_MS)| == n
    decreases n
  {
    hide Fresh, Times, Granted, ReadBy, Burst;
    BurstGrows(key, limit, at, if n == 0 then 0 else n - 1);
    if n == 0 {
      assert before + Burst(key, limit, at, n) == before;
    } else {
      var calls, call := before + Burst(key, limit, at, n - 1), Call(key, Finite(limit as real), at, at);
      BurstIsGranted(before, key, limit, at, n - 1);
      assert before + Burst(key, limit, at, n) == calls + [call];
      BurstReadBy(before, key, limit, at, n - 1);
      OneMoreOfBurst(calls, call, n - 1);
      assert Repeated(key, at, n) == Repeated(key, at, n - 1) + [Admission(key, at)];
    }
  }

  lemma {:induction false} BurstReadBy(before: seq<Call>, key: string, limit: nat, at: int, n: nat)
    requires ReadBy(before, at)
    ensures ReadBy(before + Burst(key, limit, at, n), at)
  {}

  /** `n` admissions of one key at one instant. */
  function Repeated(key: string, at: int, n: nat): (log: seq<Admission>)
    ensures |log| == n
  {
    seq(n, i => Admission(key, at))
  }

  lemma {:induction false} RepeatedInWindow(log: seq<Admission>, key: string, at: int, n: nat, from: int, length: int)
    ensures InWindow(log + Repeated(key, at, n), key, from, length)
            == InWindow(log, key, from, length) + if from <= at < from + length then n else 0
    decreases n
  {
    if n == 0 {
      assert log + Repeated(key, at, n) == log;
    } else {
      RepeatedInWindow(log, key, at, n - 1, from, length);
      InWindowGrows(log + Repeated(key, at, n - 1), Admission(key, at), key, from, length);
      assert log + Repeated(key, at, n) == log + Repeated(key, at, n - 1) + [Admission(key, at)];
    }
  }

  lemma {:induction false} RepeatedIsOld(key: string, at: int, n: nat)
    ensures AllAtMost(Times(Repeated(key, at, n), key), at)
  {
    var ts := Times(Repeated(key, at, n), key);
    forall i | 0 <= i < |ts| ensures ts[i] <= at {
      TimesAreAdmissions(Repeated(key, at, n), key, ts[i]);
    }
  }

  /** A burst at the start is admitted, and 60 seconds later it no longer counts. */
  lemma {:induction false} FirstBurst(key: string, limit: nat, at: int)
    ensures Granted(Burst(key, limit, at, limit)) == Repeated(key, at, limit)
    ensures AllAtMost(Times(Repeated(key, at, limit), key), at)
    ensures Fresh(Times(Repeated(key, at, limit), key), at) == []
  {
    hide Times;
    NoTimes(key);
    assert Granted([]) == [];
    BurstIsGranted([], key, limit, at, limit);
    assert [] + Burst(key, limit, at, limit) == Burst(key, limit, at, limit);
    RepeatedIsOld(key, at, limit);
    FreshNone(Times(Repeated(key, at, limit), key), at);
  }

  /** `limit` calls at `from`, and as many again exactly 60 seconds later. */
  function TwoBursts(key: string, limit: nat, from: int): seq<Call> {
    Burst(key, limit, from, limit) + Burst(key, limit, from + WINDOW_MS, limit)
  }

  lemma {:induction false} TwoBurstsSteady(key: string, limit: nat, from: int)
    ensures Steady(TwoBursts(key, limit, from), 0) && ReadBy(Burst(key, limit, from, limit), from + WINDOW_MS)
  {}

  /** Sixty seconds is the exact reach: for every limit a run whose clock never goes back fills a closed
      window with twice that many admissions. */
  lemma {:induction false} ClosedWindowCanDouble(key: string, limit: nat, from: int)
    ensures Steady(TwoBursts(key, limit, from), 0)
    ensures InWindow(Granted(TwoBursts(key, limit, from)), key, from, 60_001) == 2 * limit
  {
    hide Fresh, Times, Steady, ReadBy, Burst, Repeated, Granted;
    TwoBurstsSteady(key, limit, from);
    FirstBurst(key, limit, from);
    BurstIsGranted(Burst(key, limit, from, limit), key, limit, from + WINDOW_MS, limit);
    RepeatedInWindow([], key, from, limit, from, WINDOW_MS + 1);
    RepeatedInWindow(Repeated(key, from, limit), key, from + WINDOW_MS, limit, from, WINDOW_MS + 1);
    assert [] + Repeated(key, from, limit) == Repeated(key, from, limit);
  }

  // ----- When the clock goes back -----

  /** Calls for another key, as many as bring the count to a multiple of 100. */
  function Filler(limit: nat): nat {
    CLEANUP_INTERVAL - limit % CLEANUP_INTERVAL
  }

  function BurstAndFiller(key: string, limit: nat, from: int): seq<Call> {
    Burst(key, limit, from, limit) + Burst(key + "'", 1, from + WINDOW_MS, Filler(limit))
  }

  /** A burst, 60 seconds later calls for another key that end in a cleanup, and one more call of the first
      key after the clock has gone back by up to `back`. */
  function StepBack(key: string, limit: nat, from: int, back: nat): seq<Call> {
    BurstAndFiller(key, limit, from) + [LateCall(key, limit, from, back)]
  }

  function LateCall(key: string, limit: nat, from: int, back: nat): Call {
    var at := from + WINDOW_MS - if back < WINDOW_MS then back else WINDOW_MS;
    Call(key, Finite(limit as real), at, at)
  }

  lemma {:induction false} CountedBurst(before: seq<Call>, key: string, limit: nat, at: int, n: nat)
    requires limit > 0
    ensures Counted(before + Burst(key, limit, at, n)) == Counted(before) + n
    decreases n
  {
    hide Burst, Counted, Replay, Granted, WindowsAfter, LogAfter, AfterCall, Allows;
    BurstGrows(key, limit, at, if n == 0 then 0 else n - 1);
    if n == 0 {
      assert before + Burst(key, limit, at, n) == before;
    } else {
      var calls, call := before + Burst(key, limit, at, n - 1), Call(key, Finite(limit as real), at, at);
      CountedBurst(before, key, limit, at, n - 1);
      HistoryGrows(calls, call);
      assert before + Burst(key, limit, at, n) == calls + [call];
    }
  }

  /** A call for another key changes nothing for this one. */
  lemma {:induction false} OtherCall(calls: seq<Call>, call: Call, key: string, from: int, length: int)
    requires call.key != key
    ensures Times(Granted(calls + [call]), key) == Times(Granted(calls), key)
    ensures InWindow(Granted(calls + [call]), key, from, length) == InWindow(Granted(calls), key, from, length)
  {
    hide Times, InWindow, Granted, WindowsAfter, Allows;
    HistoryGrows(calls, call);
    if Allows(WindowsAfter(calls), call) {
      TimesGrow(Granted(calls), Admission(call.key, call.now), key);
      InWindowGrows(Granted(calls), Admission(call.key, call.now), key, from, length);
      assert Times(Granted(calls), key) + [] == Times(Granted(calls), key);
    } else {
      assert Granted(calls) + [] == Granted(calls);
    }
  }

  lemma {:induction false} OtherBurst(before: seq<Call>, key: string, other: string, limit: nat, at: int, n: nat,
                                      from: int, length: int)
    requires key != other
    ensures var log := Granted(before + Burst(other, limit, at, n));
            && Times(log, key) == Times(Granted(before), key)
            && InWindow(log, key, from, length) == InWindow(Granted(before), key, from, length)
    decreases n
  {
    hide Burst, Times, InWindow, Granted;
    BurstGrows(other, limit, at, if n == 0 then 0 else n - 1);
    if n == 0 {
      assert before + Burst(other, limit, at, n) == before;
    } else {
      var calls, call := before + Burst(other, limit, at, n - 1), Call(other, Finite(limit as real), at, at);
      OtherBurst(before, key, other, limit, at, n - 1, from, length);
      assert before + Burst(other, limit, at, n) == calls + [call];
      OtherCall(calls, call, key, from, length);
    }
  }

  lemma {:induction false} FillerCleansUp(key: string, limit: nat, from: int)
    ensures var calls := BurstAndFiller(key, limit, from);
            calls != [] && CleansUp(calls) && calls[|calls| - 1].cleanupNow == from + WINDOW_MS
  {
    var calls := BurstAndFiller(key, limit, from);
    assert calls[|calls| - 1] == Call(key + "'", Finite(1.0), from + WINDOW_MS, from + WINDOW_MS);
    hide Burst, Counted;
    CountedFirst(key, limit, from);
    CountedBurst(Burst(key, limit, from, limit), key + "'", 1, from + WINDOW_MS, Filler(limit));
  }

  /** The cleanup forgets the first burst altogether. */
  lemma {:induction false} FillerForgets(key: string, limit: nat, from: int, length: int)
    ensures var calls := BurstAndFiller(key, limit, from);
            && key !in WindowsAfter(calls)
            && InWindow(Granted(calls), key, from, length) == if length > 0 then limit else 0
  {
    var first, other, calls := Burst(key, limit, from, limit), key + "'", BurstAndFiller(key, limit, from);
    assert |other| != |key|;
    FillerCleansUp(key, limit, from);
    OtherBurst(first, key, other, 1, from + WINDOW_MS, Filler(limit), from, length);
    hide Burst, BurstAndFiller, Times, InWindow, Granted, WindowsAfter, Repeated, ActiveKeys, Fresh, Counted;
    FirstBurst(key, limit, from);
    CleanedKeys(calls);
    ActiveHasFresh(Granted(calls), key, from + WINDOW_MS);
    RepeatedInWindow([], key, from, limit, from, length);
    EmptyWindow(key, from, length);
    assert [] + Repeated(key, from, limit) == Repeated(key, from, limit);
  }

  lemma EmptyWindow(key: string, from: int, length: int)
    ensures InWindow([], key, from, length) == 0
  {}

  lemma {:induction false} CountedFirst(key: string, limit: nat, at: int)
    ensures Counted(Burst(key, limit, at, limit)) == limit
  {
    if limit > 0 {
      CountedBurst([], key, limit, at, limit);
      assert [] + Burst(key, limit, at, limit) == Burst(key, limit, at, limit);
    }
  }

  /** The failing family: for every limit, one reading that steps back by any amount admits one call too many
      in a window as short as 60 seconds less that amount, and an instant. */
  lemma {:induction false} StepBackExceeds(key: string, limit: nat, from: int, length: int, back: nat)
    requires limit > 0 && length > 0 && length + back > WINDOW_MS
    ensures Steady(StepBack(key, limit, from, back), back) && LimitsAtMost(StepBack(key, limit, from, back), key, limit)
    ensures InWindow(Granted(StepBack(key, limit, from, back)), key, from, length) == limit + 1
  {
    StepBackSteady(key, limit, from, back);
    var calls, call := BurstAndFiller(key, limit, from), LateCall(key, limit, from, back);
    hide Steady, LimitsAtMost, InWindow, BurstAndFiller, Granted, WindowsAfter;
    FillerForgets(key, limit, from, length);
    HistoryGrows(calls, call);
    assert Allows(WindowsAfter(calls), call);
    InWindowGrows(Granted(calls), Admission(call.key, call.now), key, from, length);
  }

  lemma {:induction false} StepBackSteady(key: string, limit: nat, from: int, back: nat)
    ensures Steady(StepBack(key, limit, from, back), back) && LimitsAtMost(StepBack(key, limit, from, back), key, limit)
  {}

  /** In every run whose readings go back by at most `back`, a window of `length` milliseconds holds at most
      `limit` admissions of a key that is called with no larger limit. */
  ghost predicate LimitHolds(key: string, length: int, back: nat, limit: nat) {
    forall calls, from :: Steady(calls, back) && LimitsAtMost(calls, key, limit)
      ==> InWindow(Granted(calls), key, from, length) <= limit
  }

  /** The exact tolerance: the limit holds over windows of a given length if and only if they are shorter
      than 60 seconds by as much as the clock may go back. Over full 60-second windows it holds only for
      a clock that never goes back. */
  lemma {:induction false} LimitHoldsIff(key: string, length: int, back: nat, limit: nat)
    requires limit > 0
    ensures LimitHolds(key, length, back, limit) <==> length <= 0 || length + back <= 60_000
    ensures LimitHolds(key, 60_000, back, limit) <==> back == 0
  {
    ToleranceIff(key, length, back, limit);
    ToleranceIff(key, WINDOW_MS, back, limit);
  }

  lemma {:induction false} ToleranceIff(key: string, length: int, back: nat, limit: nat)
    requires limit > 0
    ensures LimitHolds(key, length, back, limit) <==> length <= 0 || length + back <= WINDOW_MS
  {
    hide Steady, LimitsAtMost, InWindow, Granted;
    if length <= 0 || length + back <= WINDOW_MS {
      forall calls, from | Steady(calls, back) && LimitsAtMost(calls, key, limit)
        ensures InWindow(Granted(calls), key, from, length) <= limit
      {
        if length + back <= WINDOW_MS {
          SteadyBound(calls, key, from, length, back, limit);
        } else {
          NoRoom(Granted(calls), key, from, length);
        }
      }
    } else {
      StepBackExceeds(key, limit, 0, length, back);
      assert InWindow(Granted(StepBack(key, limit, 0, back)), key, 0, length) > limit;
    }
  }

  lemma {:induction false} NoRoom(log: seq<Admission>, key: string, from: int, length: int)
    requires length <= 0
    ensures InWindow(log, key, from, length) == 0
    decreases |log|
  {
    if log != [] {
      NoRoom(log[..|log| - 1], key, from, length);
    }
  }

  /** The limiter that never forgets keeps the limit under any clock. */
  lemma {:induction false} ReplayBound(calls: seq<Call>, key: string, from: int, most: nat)
    requires LimitsAtMost(calls, key, most)
    ensures InWindow(Replay(calls), key, from, WINDOW_MS) <= most
    decreases |calls|
  {
    if calls != [] {
      hide Fresh, Times, InWindow;
      var k := |calls| - 1;
      var log, call := Replay(calls[..k]), calls[k];
      ReplayBound(calls[..k], key, from, most);
      InWindowGrows(log, Admission(call.key, call.now), key, from, WINDOW_MS);
      if Admits(log, call) && call.key == key && from <= call.now < from + WINDOW_MS {
        WindowWithinFresh(log, key, from, WINDOW_MS, call.now - WINDOW_MS);
        assert call.limit.value <= most as real;
        assert InWindow(log, key, from, WINDOW_MS) as real < most as real;
      }
    }
  }

  /** Evicting and cleaning up is unobservable in all runs whose readings go back by at most `back`. */
  ghost predicate ForgettingUnobservable(back: nat) {
    forall calls :: Steady(calls, back) ==> Granted(calls) == Replay(calls)
  }

  /** The exact condition for that: the clock never goes back. */
  lemma {:induction false} ForgettingUnobservableIff(back: nat)
    ensures ForgettingUnobservable(back) <==> back == 0
  {
    if back == 0 {
      forall calls | Steady(calls, back) ensures Granted(calls) == Replay(calls) {
        AgreesWithLog(calls);
      }
    } else {
      hide InWindow, Granted, Replay, LimitsAtMost, Steady, StepBack;
      var calls := StepBack("k", 1, 0, back);
      StepBackExceeds("k", 1, 0, WINDOW_MS, back);
      ReplayBound(calls, "k", 0, 1);
      assert Granted(calls) != Replay(calls);
    }
  }
}
