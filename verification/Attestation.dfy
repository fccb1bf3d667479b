/** The predecessor walk of the attestation generator (api/src/attestation.ts).

    The database is a map from turn ids to their rows; a query for a turn inside a project finds the
    row only when the turn belongs to that project. */
module Attestation {
  import opened Basics

  const MAX_DEPTH: nat := 100

  datatype TurnRow = TurnRow(projectId: string, sessionId: string, timestamp: string, supersedes: Option<string>)

  datatype ProvenanceEntry = ProvenanceEntry(sessionId: string, turnId: string, toolName: string, timestamp: string)

  type Database = map<string, TurnRow>

  predicate InProject(db: Database, project: string, id: string) {
    id in db && db[id].projectId == project
  }

  /** One supersedes step from a turn inside the project; an empty id counts as none. */
  function Next(db: Database, project: string, id: string): Option<string> {
    if id != "" && InProject(db, project, id) && db[id].supersedes.Some? && db[id].supersedes.value != ""
    then db[id].supersedes else None
  }

  /** The turn `n` steps away, if the chain is that long. The last turn may lie outside the project. */
  function Reach(db: Database, project: string, id: string, n: nat): Option<string>
    decreases n
  {
    if n == 0 then Some(id)
    else
      var before := Reach(db, project, id, n - 1);
      if before.None? then None else Next(db, project, before.value)
  }

  /** One step further, in terms of the rows: from a turn of the project to the one it supersedes, whatever
      project that one belongs to; empty ids lead nowhere. */
  lemma ReachOneMore(db: Database, project: string, id: string, n: nat, y: string)
    ensures Reach(db, project, id, n + 1) == Some(y)
            <==> exists x :: Reach(db, project, id, n) == Some(x) && x != "" && x in db
                   && db[x].projectId == project && db[x].supersedes == Some(y) && y != ""
    ensures Reach(db, project, id, 0) == Some(id)
  {
    assert Reach(db, project, id, n + 1) == if Reach(db, project, id, n).None? then None
                                            else Next(db, project, Reach(db, project, id, n).value);
  }

  ghost predicate Within(db: Database, project: string, seeds: set<string>, most: nat, id: string) {
    exists s, n: nat :: s in seeds && n <= most && Reach(db, project, s, n) == Some(id)
  }

  lemma {:induction false} ChainEnds(db: Database, project: string, id: string, n: nat, later: nat)
    requires Reach(db, project, id, n).None? && n <= later
    ensures Reach(db, project, id, later).None?
    decreases later - n
  {
    if n < later {
      ChainEnds(db, project, id, n + 1, later);
    }
  }

  /** Once a chain has come back to itself it only repeats what it went through. */
  lemma {:induction false} ChainRepeats(db: Database, project: string, id: string, i: nat, j: nat, n: nat) returns (k: nat)
    requires i < j <= n && Reach(db, project, id, i) == Reach(db, project, id, j)
    ensures k < j && Reach(db, project, id, n) == Reach(db, project, id, k)
    decreases n
  {
    if n == j {
      k := i;
    } else {
      k := ChainRepeats(db, project, id, i, j, n - 1);
      if k + 1 < j {
        k := k + 1;
      } else {
        k := i;
      }
    }
  }

  /** The walk covers every chain from its seeds completely exactly when no seed has a turn 101 steps
      away that the first 100 steps from the seeds have missed. */
  lemma CompleteIff(db: Database, project: string, seeds: set<string>)
    ensures (forall n: nat, s, y :: s in seeds && Reach(db, project, s, n) == Some(y)
               ==> Within(db, project, seeds, MAX_DEPTH, y))
            <==>
            (forall s :: s in seeds && Reach(db, project, s, MAX_DEPTH + 1).Some?
               ==> Within(db, project, seeds, MAX_DEPTH, Reach(db, project, s, MAX_DEPTH + 1).value))
  {
    if forall s :: s in seeds && Reach(db, project, s, MAX_DEPTH + 1).Some?
         ==> Within(db, project, seeds, MAX_DEPTH, Reach(db, project, s, MAX_DEPTH + 1).value)
    {
      forall n: nat, s, y | s in seeds && Reach(db, project, s, n) == Some(y)
        ensures Within(db, project, seeds, MAX_DEPTH, y)
      {
        NothingMissed(db, project, seeds, s, n);
      }
    }
  }

  lemma {:induction false} NothingMissed(db: Database, project: string, seeds: set<string>, s: string, n: nat)
    requires forall t :: t in seeds && Reach(db, project, t, MAX_DEPTH + 1).Some?
               ==> Within(db, project, seeds, MAX_DEPTH, Reach(db, project, t, MAX_DEPTH + 1).value)
    requires s in seeds && Reach(db, project, s, n).Some?
    ensures Within(db, project, seeds, MAX_DEPTH, Reach(db, project, s, n).value)
    decreases n
  {
    if n > MAX_DEPTH {
      NothingMissed(db, project, seeds, s, n - 1);
      var y := Reach(db, project, s, n - 1).value;
      var t, k: nat :| t in seeds && k <= MAX_DEPTH && Reach(db, project, t, k) == Some(y);
      assert Reach(db, project, t, k + 1) == Reach(db, project, s, n);
      if k == MAX_DEPTH {
        assert Reach(db, project, t, MAX_DEPTH + 1).Some?;
      }
    }
  }

  // ----- The walk -----

  /** The entry the walk adds for a newly found predecessor inside the project. */
  function PredecessorEntry(db: Database, tools: map<string, string>, id: string): ProvenanceEntry
    requires id in db
  {
    ProvenanceEntry(db[id].sessionId, id, if id in tools then tools[id] else "unknown", db[id].timestamp)
  }

  ghost predicate Distinct(added: seq<ProvenanceEntry>) {
    forall i, j :: 0 <= i < j < |added| ==> added[i].turnId != added[j].turnId
  }

  /** Exactly one entry, with the predecessor's own data, for each turn found beyond the seeds that
      lies inside the project. */
  ghost predicate OneEntryEach(db: Database, tools: map<string, string>, project: string,
                               seeds: set<string>, turnIds: set<string>, added: seq<ProvenanceEntry>)
  {
    && Distinct(added)
    && (forall i :: 0 <= i < |added| ==>
          var id := added[i].turnId;
          && id in turnIds - seeds && id in db && db[id].projectId == project
          && added[i].sessionId == db[id].sessionId && added[i].timestamp == db[id].timestamp
          && added[i].toolName == if id in tools then tools[id] else "unknown")
    && (forall id :: id in turnIds - seeds && id in db && db[id].projectId == project ==> HasEntry(added, id))
  }

  ghost predicate HasEntry(added: seq<ProvenanceEntry>, id: string) {
    exists i :: 0 <= i < |added| && added[i].turnId == id
  }

  lemma EntryAdded(db: Database, tools: map<string, string>, project: string, seeds: set<string>,
                   turnIds: set<string>, added: seq<ProvenanceEntry>, id: string)
    requires OneEntryEach(db, tools, project, seeds, turnIds, added)
    requires seeds <= turnIds && id !in turnIds
    ensures InProject(db, project, id) ==>
              OneEntryEach(db, tools, project, seeds, turnIds + {id}, added + [PredecessorEntry(db, tools, id)])
    ensures !InProject(db, project, id) ==> OneEntryEach(db, tools, project, seeds, turnIds + {id}, added)
  {
    if InProject(db, project, id) {
      var more := added + [PredecessorEntry(db, tools, id)];
      forall x | x in turnIds + {id} - seeds && InProject(db, project, x) ensures HasEntry(more, x) {
        if x == id {
          assert more[|added|].turnId == id;
        } else {
          assert HasEntry(added, x);
          var i :| 0 <= i < |added| && added[i].turnId == x;
          assert more[i].turnId == x;
        }
      }
    }
  }

  lemma ReachStarts(db: Database, project: string, seed: string)
    ensures Reach(db, project, seed, 0) == Some(seed)
  {}

  lemma ReachStep(db: Database, project: string, seed: string, n: nat)
    requires Reach(db, project, seed, n).Some?
    ensures Reach(db, project, seed, n + 1) == Next(db, project, Reach(db, project, seed, n).value)
  {}

  lemma WithinReach(db: Database, project: string, seeds: set<string>, seed: string, n: nat)
    requires seed in seeds && n <= MAX_DEPTH && Reach(db, project, seed, n).Some?
    ensures Within(db, project, seeds, MAX_DEPTH, Reach(db, project, seed, n).value)
  {}

  /** The walk from one seed. */
  method WalkChain(db: Database, tools: map<string, string>, project: string, ghost seeds: set<string>,
                   seed: string, turnIds0: set<string>, added0: seq<ProvenanceEntry>)
    returns (turnIds: set<string>, added: seq<ProvenanceEntry>)
    requires seed in seeds && seeds <= turnIds0
    requires OneEntryEach(db, tools, project, seeds, turnIds0, added0)
    ensures turnIds0 <= turnIds
    ensures forall y :: y in turnIds ==> y in turnIds0 || Within(db, project, seeds, MAX_DEPTH, y)
    ensures forall n: nat, y :: n <= MAX_DEPTH && Reach(db, project, seed, n) == Some(y) ==> y in turnIds
    ensures OneEntryEach(db, tools, project, seeds, turnIds, added)
  {
    hide OneEntryEach, Reach, Within;
    ReachStarts(db, project, seed);
    turnIds, added := turnIds0, added0;
    var currentTurnId := Some(seed);
    var depth: nat := 0;
    var visitedInChain: set<string> := {};
    while currentTurnId.Some? && currentTurnId.value != "" && depth < MAX_DEPTH
      invariant depth <= MAX_DEPTH && currentTurnId.Some? && Reach(db, project, seed, depth) == currentTurnId
      invariant forall n: nat, y :: n <= depth && Reach(db, project, seed, n) == Some(y) ==> y in turnIds
      invariant forall y :: y in visitedInChain ==> exists n: nat :: n < depth && Reach(db, project, seed, n) == Some(y)
      invariant turnIds0 <= turnIds
      invariant forall y :: y in turnIds ==> y in turnIds0 || Within(db, project, seeds, MAX_DEPTH, y)
      invariant OneEntryEach(db, tools, project, seeds, turnIds, added)
      decreases MAX_DEPTH - depth
    {
      var current := currentTurnId.value;
      if current in visitedInChain {
        RevisitFindsNothingNew(db, project, seed, depth, turnIds);
        return;
      }
      visitedInChain := visitedInChain + {current};
      ReachStep(db, project, seed, depth);
      if !InProject(db, project, current) {
        ChainStops(db, project, seed, depth, turnIds);
        return;
      }
      var nextTurnId := db[current].supersedes;
      if nextTurnId.None? || nextTurnId.value == "" {
        ChainStops(db, project, seed, depth, turnIds);
        return;
      }
      var next := nextTurnId.value;
      WithinReach(db, project, seeds, seed, depth + 1);
      if next !in turnIds {
        EntryAdded(db, tools, project, seeds, turnIds, added, next);
        turnIds := turnIds + {next};
        if InProject(db, project, next) {
          added := added + [PredecessorEntry(db, tools, next)];
        }
      }
      currentTurnId := nextTurnId;
      depth := depth + 1;
    }
    if currentTurnId.value == "" {
      ReachStep(db, project, seed, depth);
      ChainStops(db, project, seed, depth, turnIds);
    }
  }

  lemma ChainStops(db: Database, project: string, seed: string, depth: nat, turnIds: set<string>)
    requires Reach(db, project, seed, depth + 1).None?
    requires forall n: nat, y :: n <= depth && Reach(db, project, seed, n) == Some(y) ==> y in turnIds
    ensures forall n: nat, y :: n <= MAX_DEPTH && Reach(db, project, seed, n) == Some(y) ==> y in turnIds
  {
    forall n: nat, y | n <= MAX_DEPTH && Reach(db, project, seed, n) == Some(y) ensures y in turnIds {
      if n > depth {
        ChainEnds(db, project, seed, depth + 1, n);
      }
    }
  }

  /** Leaving a chain at the first turn seen before loses nothing. */
  lemma RevisitFindsNothingNew(db: Database, project: string, seed: string, depth: nat, turnIds: set<string>)
    requires exists i: nat :: i < depth && Reach(db, project, seed, i) == Reach(db, project, seed, depth)
    requires forall n: nat, y :: n <= depth && Reach(db, project, seed, n) == Some(y) ==> y in turnIds
    ensures forall n: nat, y :: n <= MAX_DEPTH && Reach(db, project, seed, n) == Some(y) ==> y in turnIds
  {
    var i: nat :| i < depth && Reach(db, project, seed, i) == Reach(db, project, seed, depth);
    forall n: nat, y | n <= MAX_DEPTH && Reach(db, project, seed, n) == Some(y) ensures y in turnIds {
      if n > depth {
        var k := ChainRepeats(db, project, seed, i, depth, n);
      }
    }
  }

  function TurnsOf(entries: seq<ProvenanceEntry>): set<string> {
    set e | e in entries :: e.turnId
  }

  lemma TurnsOfHas(entries: seq<ProvenanceEntry>, id: string)
    ensures id in TurnsOf(entries) <==> exists i :: 0 <= i < |entries| && entries[i].turnId == id
  {
    if id in TurnsOf(entries) {
      var e :| e in entries && e.turnId == id;
      var i :| 0 <= i < |entries| && entries[i] == e;
    }
  }

  /** The seed turns, as a set and in order of first appearance. */
  method SeedTurns(entries: seq<ProvenanceEntry>) returns (turnIds: set<string>, order: seq<string>)
    ensures turnIds == TurnsOf(entries)
    ensures forall id :: id in order <==> id in turnIds
  {
    turnIds, order := {}, [];
    for i := 0 to |entries|
      invariant turnIds == TurnsOf(entries[..i])
      invariant forall id :: id in order <==> id in turnIds
    {
      assert entries[..i + 1] == entries[..i] + [entries[i]];
      if entries[i].turnId !in turnIds {
        order := order + [entries[i].turnId];
      }
      turnIds := turnIds + {entries[i].turnId};
    }
    assert entries[..|entries|] == entries;
  }

  /** The chains of the first `k` seeds are in. */
  ghost predicate Covered(db: Database, project: string, order: seq<string>, k: nat, turnIds: set<string>)
    requires k <= |order|
  {
    forall j, n: nat, y :: 0 <= j < k && n <= MAX_DEPTH && Reach(db, project, order[j], n) == Some(y) ==> y in turnIds
  }

  lemma CoveredIsWithin(db: Database, project: string, order: seq<string>, turnIds: set<string>, y: string)
    requires Covered(db, project, order, |order|, turnIds)
    requires Within(db, project, (set s | s in order), MAX_DEPTH, y)
    ensures y in turnIds
  {
    var seeds := set s | s in order;
    var s, n: nat :| s in seeds && n <= MAX_DEPTH && Reach(db, project, s, n) == Some(y);
    var j :| 0 <= j < |order| && order[j] == s;
    assert Reach(db, project, order[j], n) == Some(y);
  }

  lemma SeedsAreWithin(db: Database, project: string, seeds: set<string>, y: string)
    requires y in seeds
    ensures Within(db, project, seeds, MAX_DEPTH, y)
  {
    assert Reach(db, project, y, 0) == Some(y);
  }

  /** `seedEntries` are the rows whose artifact list names a requested path. The turns collected are the
      seeds and everything within 100 steps of one of them, and nothing else. */
  method CollectProvenance(db: Database, tools: map<string, string>, project: string, seedEntries: seq<ProvenanceEntry>)
    returns (turnIds: set<string>, provenance: seq<ProvenanceEntry>)
    ensures forall y :: y in turnIds <==> Within(db, project, TurnsOf(seedEntries), 100, y)
    ensures |seedEntries| <= |provenance| && provenance[..|seedEntries|] == seedEntries
    ensures OneEntryEach(db, tools, project, TurnsOf(seedEntries), turnIds, provenance[|seedEntries|..])
  {
    hide Within, TurnsOf;
    ghost var seeds := TurnsOf(seedEntries);
    var order;
    turnIds, order := SeedTurns(seedEntries);
    var added: seq<ProvenanceEntry> := [];
    assert OneEntryEach(db, tools, project, seeds, turnIds, added);
    forall y | y in seeds ensures Within(db, project, seeds, MAX_DEPTH, y) {
      SeedsAreWithin(db, project, seeds, y);
    }
    hide OneEntryEach;
    for i := 0 to |order|
      invariant seeds <= turnIds
      invariant forall y :: y in turnIds ==> Within(db, project, seeds, MAX_DEPTH, y)
      invariant Covered(db, project, order, i, turnIds)
      invariant OneEntryEach(db, tools, project, seeds, turnIds, added)
    {
      turnIds, added := WalkChain(db, tools, project, seeds, order[i], turnIds, added);
    }
    forall y | Within(db, project, seeds, MAX_DEPTH, y) ensures y in turnIds {
      assert (set s | s in order) == seeds;
      CoveredIsWithin(db, project, order, turnIds, y);
    }
    provenance := seedEntries + added;
    assert provenance[|seedEntries|..] == added;
  }
}
