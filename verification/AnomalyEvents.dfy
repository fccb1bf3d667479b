/** The anomaly event table: the persist-with-dedup loop of evaluation
    (api/src/anomaly-detection/evaluate.ts) and the resolve step (api/src/anomaly-detection/resolution.ts).

    Clock readings are milliseconds. The table stores `detected_at` in whole seconds
    (api/migrations/007_fix-anomaly-events.sql), so the model does too. */
module AnomalyEvents {
  import opened Basics

  const DAY_MS: int := 86_400_000

  datatype Event = Event(
    id: string, sessionId: Option<string>, anomalyType: string, projectId: Option<string>,
    detectedAt: int, resolvedAt: Option<int>, note: Option<string>)

  /** A detected anomaly, the clock readings of its two queries and the key the insert would draw. */
  datatype Attempt = Attempt(sessionId: string, anomalyType: string, projectId: string,
                             selectAt: int, insertAt: int, id: string)

  /** A column that is null equals nothing. */
  predicate Matches(e: Event, a: Attempt) {
    e.sessionId == Some(a.sessionId) && e.anomalyType == a.anomalyType && e.projectId == Some(a.projectId)
  }

  predicate Blocks(e: Event, a: Attempt) {
    Matches(e, a) && e.resolvedAt.None? && e.detectedAt * 1000 > a.selectAt - DAY_MS
  }

  predicate Blocked(events: seq<Event>, a: Attempt) {
    exists i :: 0 <= i < |events| && Blocks(events[i], a)
  }

  function NewEvent(a: Attempt): Event {
    Event(a.id, Some(a.sessionId), a.anomalyType, Some(a.projectId), a.insertAt / 1000, None, None)
  }

  function Persist(events: seq<Event>, a: Attempt): seq<Event> {
    if Blocked(events, a) then events else events + [NewEvent(a)]
  }

  function PersistAll(events: seq<Event>, batch: seq<Attempt>): (r: seq<Event>)
    ensures |events| <= |r| && r[..|events|] == events
    decreases |batch|
  {
    if batch == [] then events
    else
      var before := PersistAll(events, batch[..|batch| - 1]);
      var r := Persist(before, batch[|batch| - 1]);
      assert r[..|events|] == before[..|events|];
      r
  }

  /** An insert never reads the clock before its select. */
  ghost predicate Clocked(batch: seq<Attempt>) {
    forall i :: 0 <= i < |batch| ==> batch[i].selectAt <= batch[i].insertAt
  }

  predicate SameTriple(e: Event, f: Event) {
    && e.sessionId.Some? && e.sessionId == f.sessionId && e.anomalyType == f.anomalyType
    && e.projectId.Some? && e.projectId == f.projectId
  }

  /** Two unresolved events of one session, type and project are recorded at least 24 hours apart. */
  ghost predicate Spaced(events: seq<Event>) {
    forall i, j :: 0 <= i < j < |events| && SameTriple(events[i], events[j])
      && events[i].resolvedAt.None? && events[j].resolvedAt.None?
      ==> events[i].detectedAt + 86_400 <= events[j].detectedAt
  }

  lemma PersistKeepsSpaced(events: seq<Event>, a: Attempt)
    requires Spaced(events) && a.selectAt <= a.insertAt
    ensures Spaced(Persist(events, a))
  {
    if !Blocked(events, a) {
      forall i | 0 <= i < |events| && SameTriple(events[i], NewEvent(a)) && events[i].resolvedAt.None?
        ensures events[i].detectedAt + 86_400 <= a.insertAt / 1000
      {
        assert !Blocks(events[i], a);
      }
    }
  }

  lemma {:induction false} BatchKeepsSpaced(events: seq<Event>, batch: seq<Attempt>)
    requires Spaced(events) && Clocked(batch)
    ensures Spaced(PersistAll(events, batch))
    decreases |batch|
  {
    hide Spaced;
    if batch != [] {
      BatchKeepsSpaced(events, batch[..|batch| - 1]);
      PersistKeepsSpaced(PersistAll(events, batch[..|batch| - 1]), batch[|batch| - 1]);
    }
  }

  /** A row a batch adds is made of one of its attempts, recorded in whole seconds and unresolved. */
  lemma {:induction false} InsertedAre(events: seq<Event>, batch: seq<Attempt>, k: nat) returns (i: nat)
    requires |events| <= k < |PersistAll(events, batch)|
    ensures i < |batch| && PersistAll(events, batch)[k] == NewEvent(batch[i])
    ensures NewEvent(batch[i]) == Event(batch[i].id, Some(batch[i].sessionId), batch[i].anomalyType,
                                        Some(batch[i].projectId), batch[i].insertAt / 1000, None, None)
    decreases |batch|
  {
    if batch != [] {
      var n := |batch| - 1;
      var before := PersistAll(events, batch[..n]);
      if k < |before| {
        i := InsertedAre(events, batch[..n], k);
      } else {
        i := n;
      }
    }
  }

  /** A batch whose clock readings span less than 24 hours, less the one second lost to rounding, inserts
      at most one event per session, type and project, however many anomalies it detects. */
  lemma OnePerBatch(events: seq<Event>, batch: seq<Attempt>, first: int, last: int, j: nat, k: nat)
    requires Spaced(events) && Clocked(batch) && last - first <= 86_399_000
    requires forall i :: 0 <= i < |batch| ==> first <= batch[i].selectAt && batch[i].insertAt <= last
    requires |events| <= j < k < |PersistAll(events, batch)|
    ensures !SameTriple(PersistAll(events, batch)[j], PersistAll(events, batch)[k])
  {
    BatchKeepsSpaced(events, batch);
    var x := InsertedAre(events, batch, j);
    var y := InsertedAre(events, batch, k);
    assert batch[x].insertAt / 1000 >= first / 1000 && batch[y].insertAt / 1000 <= last / 1000;
  }

  // ----- What a batch inserts -----

  /** Whatever a batch skips is on record: after it every attempt of it has an unresolved event of its own
      session, type and project, recorded less than 24 hours before it looked. */
  lemma {:induction false} EveryAttemptCovered(events: seq<Event>, batch: seq<Attempt>, i: nat) returns (k: nat)
    requires i < |batch| && Clocked(batch)
    ensures k < |PersistAll(events, batch)|
    ensures var e, a := PersistAll(events, batch)[k], batch[i];
            && e.sessionId == Some(a.sessionId) && e.anomalyType == a.anomalyType && e.projectId == Some(a.projectId)
            && e.resolvedAt.None? && e.detectedAt * 1000 > a.selectAt - 86_400_000
    decreases |batch|
  {
    var n := |batch| - 1;
    var before, after := PersistAll(events, batch[..n]), PersistAll(events, batch);
    assert after[..|before|] == before by {
      assert Persist(before, batch[n])[..|before|] == before;
    }
    if i < n {
      k := EveryAttemptCovered(events, batch[..n], i);
      assert after[k] == after[..|before|][k];
    } else if Blocked(before, batch[n]) {
      k :| 0 <= k < |before| && Blocks(before[k], batch[n]);
    } else {
      k := |before|;
    }
  }

  /** The rows of one session, type and project. */
  function RowsOf(events: seq<Event>, session: string, anomalyType: string, project: string): seq<Event>
    decreases |events|
  {
    if events == [] then []
    else
      var e := events[|events| - 1];
      RowsOf(events[..|events| - 1], session, anomalyType, project)
      + if e.sessionId == Some(session) && e.anomalyType == anomalyType && e.projectId == Some(project) then [e] else []
  }

  predicate IsOf(a: Attempt, session: string, anomalyType: string, project: string) {
    a.sessionId == session && a.anomalyType == anomalyType && a.projectId == project
  }

  function AttemptsOf(batch: seq<Attempt>, session: string, anomalyType: string, project: string): seq<Attempt>
    decreases |batch|
  {
    if batch == [] then []
    else
      var a := batch[|batch| - 1];
      AttemptsOf(batch[..|batch| - 1], session, anomalyType, project)
      + if IsOf(a, session, anomalyType, project) then [a] else []
  }

  lemma {:induction false} RowsOfHas(events: seq<Event>, session: string, anomalyType: string, project: string, e: Event)
    ensures e in RowsOf(events, session, anomalyType, project)
            <==> e in events && e.sessionId == Some(session) && e.anomalyType == anomalyType && e.projectId == Some(project)
    decreases |events|
  {
    if events != [] {
      var n := |events| - 1;
      RowsOfHas(events[..n], session, anomalyType, project, e);
      assert events == events[..n] + [events[n]];
    }
  }

  lemma BlockedHas(events: seq<Event>, a: Attempt)
    ensures Blocked(events, a) <==> exists e :: e in events && Blocks(e, a)
  {
    if e :| e in events && Blocks(e, a) {
      var i :| 0 <= i < |events| && events[i] == e;
    }
  }

  lemma {:induction false} BlockedByOwn(events: seq<Event>, a: Attempt)
    ensures Blocked(events, a) <==> Blocked(RowsOf(events, a.sessionId, a.anomalyType, a.projectId), a)
  {
    var own := RowsOf(events, a.sessionId, a.anomalyType, a.projectId);
    BlockedHas(events, a);
    BlockedHas(own, a);
    forall e | Blocks(e, a) ensures e in events <==> e in own {
      RowsOfHas(events, a.sessionId, a.anomalyType, a.projectId, e);
    }
  }

  lemma {:induction false} PersistTriple(events: seq<Event>, a: Attempt, session: string, anomalyType: string, project: string)
    ensures var own := RowsOf(events, session, anomalyType, project);
            RowsOf(Persist(events, a), session, anomalyType, project)
            == if IsOf(a, session, anomalyType, project) then Persist(own, a) else own
  {
    hide Blocked;
    BlockedByOwn(events, a);
    var after := events + [NewEvent(a)];
    assert after[..|after| - 1] == events;
  }

  lemma AttemptsLast(batch: seq<Attempt>, session: string, anomalyType: string, project: string)
    requires batch != []
    ensures var n := |batch| - 1;
            var before := AttemptsOf(batch[..n], session, anomalyType, project);
            AttemptsOf(batch, session, anomalyType, project)
            == if IsOf(batch[n], session, anomalyType, project) then before + [batch[n]] else before
  {}

  lemma PersistAllLast(events: seq<Event>, batch: seq<Attempt>, a: Attempt)
    ensures PersistAll(events, batch + [a]) == Persist(PersistAll(events, batch), a)
  {
    assert (batch + [a])[..|batch|] == batch;
  }

  /** Sessions, types and projects do not interfere: what happens to the rows of one of them is what happens
      to a table that holds them alone when only its own attempts are made. */
  lemma {:induction false} TriplesIndependent(events: seq<Event>, batch: seq<Attempt>,
                                              session: string, anomalyType: string, project: string)
    ensures RowsOf(PersistAll(events, batch), session, anomalyType, project)
            == PersistAll(RowsOf(events, session, anomalyType, project), AttemptsOf(batch, session, anomalyType, project))
    decreases |batch|
  {
    if batch != [] {
      var n := |batch| - 1;
      var a, init := batch[n], batch[..n];
      var own, ownInit := RowsOf(events, session, anomalyType, project), AttemptsOf(init, session, anomalyType, project);
      assert PersistAll(events, batch) == Persist(PersistAll(events, init), a);
      hide Persist, RowsOf, PersistAll, AttemptsOf, IsOf;
      TriplesIndependent(events, init, session, anomalyType, project);
      PersistTriple(PersistAll(events, init), a, session, anomalyType, project);
      AttemptsLast(batch, session, anomalyType, project);
      PersistAllLast(own, ownInit, a);
    }
  }

  // ----- The instants of two inserts -----

  /** Recorded times are whole seconds, so two inserts can come closer than 24 hours, by exactly the
      fraction of a second that the first one lost. */
  lemma AlmostADayApart(e: Event, a: Attempt, insertedAt: int)
    requires Matches(e, a) && e.resolvedAt.None? && e.detectedAt == insertedAt / 1000
    requires !Blocks(e, a) && a.selectAt <= a.insertAt
    ensures a.insertAt - insertedAt >= 86_400_000 - insertedAt % 1000
  {}

  /** Every attempt that this event matches and does not block inserts at least 24 hours after it. */
  ghost predicate KeepsADayOff(e: Event, insertedAt: int) {
    forall a: Attempt :: Matches(e, a) && !Blocks(e, a) && a.selectAt <= a.insertAt ==> a.insertAt - insertedAt >= 86_400_000
  }

  /** The exact condition for 24 hours between the inserts themselves: the first fell on a whole second. */
  lemma DayBetweenInsertsIff(e: Event, insertedAt: int)
    requires e.sessionId.Some? && e.projectId.Some? && e.resolvedAt.None? && e.detectedAt == insertedAt / 1000
    ensures KeepsADayOff(e, insertedAt) <==> insertedAt % 1000 == 0
  {
    var at := e.detectedAt * 1000 + DAY_MS;
    var soonest := Attempt(e.sessionId.value, e.anomalyType, e.projectId.value, at, at, "");
    assert Matches(e, soonest) && !Blocks(e, soonest);
    forall a: Attempt | Matches(e, a) && !Blocks(e, a) && a.selectAt <= a.insertAt
      ensures a.insertAt - insertedAt >= DAY_MS - insertedAt % 1000
    {
      AlmostADayApart(e, a, insertedAt);
    }
  }

  /** The failing family: after any insert that is not on a whole second, in any table, a twin is
      inserted less than 24 hours later. */
  lemma EarlyTwin(events: seq<Event>, a: Attempt, id: string)
    requires !Blocked(events, a) && a.selectAt <= a.insertAt && a.insertAt % 1000 != 0
    ensures var at := a.insertAt - a.insertAt % 1000 + DAY_MS;
            var b := a.(selectAt := at, insertAt := at, id := id);
            && PersistAll(events, [a, b]) == events + [NewEvent(a), NewEvent(b)]
            && b.insertAt - a.insertAt < 86_400_000
  {
    var at := a.insertAt - a.insertAt % 1000 + DAY_MS;
    var b := a.(selectAt := at, insertAt := at, id := id);
    assert [a, b][..1] == [a] && [a][..0] == [];
    assert PersistAll(events, [a]) == events + [NewEvent(a)];
    forall i | 0 <= i < |events| ensures !Blocks(events[i], b) {
      assert !Blocks(events[i], a);
    }
    assert !Blocks(NewEvent(a), b);
    assert events + [NewEvent(a)] + [NewEvent(b)] == events + [NewEvent(a), NewEvent(b)];
  }

  // ----- Resolving -----

  predicate HasId(events: seq<Event>, id: string) {
    exists i :: 0 <= i < |events| && events[i].id == id
  }

  /** The event belongs to another project than the one the caller's key is scoped to. */
  predicate Forbidden(events: seq<Event>, id: string, keyProject: Option<string>) {
    exists i :: 0 <= i < |events| && events[i].id == id && ScopedElsewhere(keyProject, events[i].projectId)
  }

  function ResolveStatus(events: seq<Event>, id: string, note: Option<string>, keyProject: Option<string>): int {
    if note.Some? && |note.value| > 10000 then 400
    else if !HasId(events, id) then 404
    else if Forbidden(events, id, keyProject) then 403
    else 200
  }

  function Resolve(events: seq<Event>, id: string, note: Option<string>, keyProject: Option<string>, now: int): seq<Event> {
    if ResolveStatus(events, id, note, keyProject) != 200 then events
    else
      seq(|events|, i requires 0 <= i < |events| =>
        if events[i].id == id then events[i].(resolvedAt := Some(now), note := note) else events[i])
  }

  predicate DistinctIds(events: seq<Event>) {
    forall i, j :: 0 <= i < j < |events| ==> events[i].id != events[j].id
  }

  /** What the table keeps: a key of its own for every row, and the 24-hour spacing. */
  ghost predicate ValidTable(events: seq<Event>) {
    Spaced(events) && DistinctIds(events)
  }

  /** The keys a batch may draw are new to the table and never repeat. */
  predicate FreshIds(events: seq<Event>, batch: seq<Attempt>) {
    && (forall i, j :: 0 <= i < |events| && 0 <= j < |batch| ==> events[i].id != batch[j].id)
    && (forall i, j :: 0 <= i < j < |batch| ==> batch[i].id != batch[j].id)
  }

  lemma BatchKeepsDistinctIds(events: seq<Event>, batch: seq<Attempt>)
    requires DistinctIds(events) && FreshIds(events, batch)
    ensures DistinctIds(PersistAll(events, batch))
  {
    var after := PersistAll(events, batch);
    forall i, j | 0 <= i < j < |after| ensures after[i].id != after[j].id {
      assert forall k :: 0 <= k < |events| ==> after[k] == after[..|events|][k];
      if j >= |events| {
        var y := InsertedAre(events, batch, j);
        if i >= |events| {
          var x, z := InsertedInOrder(events, batch, i, j);
        }
      }
    }
  }

  /** Rows come from different attempts of the batch, in its order. */
  lemma {:induction false} InsertedInOrder(events: seq<Event>, batch: seq<Attempt>, i: nat, j: nat) returns (x: nat, y: nat)
    requires |events| <= i < j < |PersistAll(events, batch)|
    ensures x < y < |batch|
    ensures PersistAll(events, batch)[i] == NewEvent(batch[x]) && PersistAll(events, batch)[j] == NewEvent(batch[y])
    decreases |batch|
  {
    if batch != [] {
      var n := |batch| - 1;
      var before := PersistAll(events, batch[..n]);
      if j < |before| {
        x, y := InsertedInOrder(events, batch[..n], i, j);
      } else {
        x := InsertedAre(events, batch[..n], i);
        y := n;
      }
    }
  }

  lemma ResolveKeepsValid(events: seq<Event>, id: string, note: Option<string>, keyProject: Option<string>, now: int)
    requires ValidTable(events)
    ensures ValidTable(Resolve(events, id, note, keyProject, now))
  {
    var after := Resolve(events, id, note, keyProject, now);
    assert forall i :: 0 <= i < |events| ==>
      after[i] == events[i] || after[i] == events[i].(resolvedAt := Some(now), note := note);
    forall i, j | 0 <= i < j < |after| && SameTriple(after[i], after[j])
      && after[i].resolvedAt.None? && after[j].resolvedAt.None?
      ensures after[i].detectedAt + 86_400 <= after[j].detectedAt
    {
      assert SameTriple(events[i], events[j]);
    }
  }

  // ----- Any sequential run of evaluations and resolutions -----

  datatype Step =
    | Evaluate(batch: seq<Attempt>)
    | ResolveOne(id: string, note: Option<string>, keyProject: Option<string>, now: int)

  function Apply(events: seq<Event>, step: Step): seq<Event> {
    match step
    case Evaluate(batch) => PersistAll(events, batch)
    case ResolveOne(id, note, keyProject, now) => Resolve(events, id, note, keyProject, now)
  }

  function Run(events: seq<Event>, steps: seq<Step>): seq<Event>
    decreases |steps|
  {
    if steps == [] then events else Run(Apply(events, steps[0]), steps[1..])
  }

  /** All that is asked of a run: clocks do not go back inside an attempt, and drawn keys are new. The
      clocks of different steps need not agree. */
  ghost predicate Legal(events: seq<Event>, steps: seq<Step>)
    decreases |steps|
  {
    steps != [] ==>
      && (steps[0].Evaluate? ==> Clocked(steps[0].batch) && FreshIds(events, steps[0].batch))
      && Legal(Apply(events, steps[0]), steps[1..])
  }

  /** After any run two unresolved events of one session, type and project are recorded at least 24
      hours apart. */
  lemma {:induction false} RunKeepsValid(events: seq<Event>, steps: seq<Step>)
    requires ValidTable(events) && Legal(events, steps)
    ensures ValidTable(Run(events, steps))
    decreases |steps|
  {
    hide Spaced, DistinctIds, FreshIds, Clocked, Resolve, PersistAll;
    if steps != [] {
      match steps[0] {
        case Evaluate(batch) =>
          BatchKeepsSpaced(events, batch);
          BatchKeepsDistinctIds(events, batch);
        case ResolveOne(id, note, keyProject, now) =>
          ResolveKeepsValid(events, id, note, keyProject, now);
      }
      RunKeepsValid(Apply(events, steps[0]), steps[1..]);
    }
  }

  class AnomalyStore {
    var events: seq<Event>

    ghost predicate Valid()
      reads this
    {
      ValidTable(events)
    }

    constructor ()
      ensures Valid() && events == []
    {
      events := [];
    }

    method PersistAnomalies(batch: seq<Attempt>)
      requires Valid() && Clocked(batch) && FreshIds(events, batch)
      modifies this
      ensures Valid()
      ensures events == PersistAll(old(events), batch)
    {
      hide Spaced, DistinctIds, FreshIds, Clocked;
      BatchKeepsSpaced(events, batch);
      BatchKeepsDistinctIds(events, batch);
      for i := 0 to |batch|
        invariant events == PersistAll(old(events), batch[..i])
      {
        assert batch[..i + 1][..i] == batch[..i];
        var existing := Existing(batch[i]);
        if existing {
          continue;
        }
        events := events + [NewEvent(batch[i])];
      }
      assert batch[..|batch|] == batch;
    }

    /** The select: does any row satisfy its five conditions? */
    method Existing(a: Attempt) returns (found: bool)
      ensures found <==> Blocked(events, a)
    {
      for i := 0 to |events|
        invariant forall k :: 0 <= k < i ==> !Blocks(events[k], a)
      {
        if Blocks(events[i], a) {
          return true;
        }
      }
      return false;
    }

    /** `keyProject` is the caller's project scope, `None` for an admin. */
    method ResolveAnomaly(id: string, note: Option<string>, keyProject: Option<string>, now: int) returns (status: int)
      requires Valid()
      modifies this
      ensures Valid()
      ensures status == if note.Some? && |note.value| > 10_000 then 400
                        else if forall i :: 0 <= i < |old(events)| ==> old(events)[i].id != id then 404
                        else if exists i :: 0 <= i < |old(events)| && old(events)[i].id == id
                                  && keyProject.Some? && keyProject.value != ""
                                  && old(events)[i].projectId != keyProject then 403
                        else 200
      ensures events == Resolve(old(events), id, note, keyProject, now) && |events| == |old(events)|
      ensures forall i :: 0 <= i < |events| ==>
                events[i] == if status == 200 && old(events)[i].id == id
                             then old(events)[i].(resolvedAt := Some(now), note := note) else old(events)[i]
    {
      ResolveKeepsValid(events, id, note, keyProject, now);
      hide Spaced;
      if note.Some? && |note.value| > 10000 {
        return 400;
      }
      var i := 0;
      while i < |events| && events[i].id != id
        invariant 0 <= i <= |events| && forall k :: 0 <= k < i ==> events[k].id != id
      {
        i := i + 1;
      }
      if i == |events| {
        return 404;
      }
      if ScopedElsewhere(keyProject, events[i].projectId) {
        return 403;
      }
      events := events[i := events[i].(resolvedAt := Some(now), note := note)];
      return 200;
    }
  }
}
