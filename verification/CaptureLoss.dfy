/** What an error or a crash in the middle of `store_object` (gateway/src/store/mod.rs) costs: exactly
    which metadata records fail verification, in every interleaving of captures, errors and crashes. */
module CaptureLoss {
  import opened Basics
  import opened Capture

  /** Some running capture owns the temporary file of this object. */
  ghost predicate Owned(p: Primitives, s: State, kind: Kind, hash: string) {
    exists id :: id in s.running && s.running[id].Owns(kind) && s.running[id].HashOf(p, kind) == hash
  }

  /** A writer is still busy with an object that is not in place yet. */
  ghost predicate Pending(p: Primitives, s: State, kind: Kind, hash: string) {
    Owned(p, s, kind, hash) && Object(kind, hash) !in s.files
  }

  /** The step ends a writer of this object, and the object is not in place. */
  ghost predicate Strikes(p: Primitives, s: State, step: Step, kind: Kind, hash: string) {
    match step
    case Begin(_) => false
    case Advance(_, _) => false
    case Fail(id, _) => id in s.running && (kind, hash) in Unfinished(p, s.files, map[id := s.running[id]])
    case Crash => (kind, hash) in Unfinished(p, s.files, s.running)
  }

  /** The step creates the temporary file of this object. */
  ghost predicate Opens(p: Primitives, s: State, step: Step, kind: Kind, hash: string) {
    ObjectTmp(kind, hash) !in s.files && ObjectTmp(kind, hash) in Apply(p, s, step).files
  }

  /** The last writer of this object was struck before the object was in place. */
  ghost predicate Lost(p: Primitives, steps: seq<Step>, kind: Kind, hash: string) {
    exists i :: 0 <= i < |steps| && LostAt(p, steps, i, kind, hash)
  }

  /** Step `i` struck the writer, and nobody opened the temporary file again. */
  ghost predicate LostAt(p: Primitives, steps: seq<Step>, i: nat, kind: Kind, hash: string)
    requires i < |steps|
  {
    && StruckAt(p, steps, i, kind, hash)
    && forall j :: i < j < |steps| ==> !OpenedAt(p, steps, j, kind, hash)
  }

  ghost predicate StruckAt(p: Primitives, steps: seq<Step>, i: nat, kind: Kind, hash: string)
    requires i < |steps|
  {
    Strikes(p, Run(p, EMPTY, steps[..i]), steps[i], kind, hash)
  }

  ghost predicate OpenedAt(p: Primitives, steps: seq<Step>, i: nat, kind: Kind, hash: string)
    requires i < |steps|
  {
    Opens(p, Run(p, EMPTY, steps[..i]), steps[i], kind, hash)
  }

  // ----- `abandoned` records exactly the lost objects -----

  lemma StepAbandons(p: Primitives, s: State, step: Step, kind: Kind, hash: string)
    requires Inv(p, s)
    ensures (kind, hash) in Apply(p, s, step).abandoned
            <==> Strikes(p, s, step, kind, hash)
                 || ((kind, hash) in s.abandoned && !Opens(p, s, step, kind, hash))
  {
    hide GoodFiles, AllBacked, Exclusive;
    if step.Advance? && step.id in s.running {
      assert s.running[step.id].id == step.id && GoodJob(p, s.files, s.running[step.id]);
    } else if step.Fail? && step.id in s.running {
      assert s.running[step.id].id == step.id;
    }
  }

  lemma {:induction false} AbandonedAreLost(p: Primitives, steps: seq<Step>, kind: Kind, hash: string)
    requires Lawful(p)
    ensures (kind, hash) in Run(p, EMPTY, steps).abandoned <==> Lost(p, steps, kind, hash)
    decreases |steps|
  {
    hide Apply, Inv, Strikes, Opens;
    if steps != [] {
      var n := |steps| - 1;
      var init := steps[..n];
      assert steps == init + [steps[n]];
      RunConcat(p, EMPTY, init, [steps[n]]);
      RunOne(p, Run(p, EMPTY, init), steps[n]);
      AbandonedAreLost(p, init, kind, hash);
      EmptyIsGood(p);
      RunKeepsInv(p, EMPTY, init);
      StepAbandons(p, Run(p, EMPTY, init), steps[n], kind, hash);
      LostGrows(p, steps, kind, hash);
    }
  }

  lemma LostGrows(p: Primitives, steps: seq<Step>, kind: Kind, hash: string)
    requires steps != []
    ensures var n := |steps| - 1;
            Lost(p, steps, kind, hash)
            <==> StruckAt(p, steps, n, kind, hash)
                 || (Lost(p, steps[..n], kind, hash) && !OpenedAt(p, steps, n, kind, hash))
  {
    hide LostAt;
    var n := |steps| - 1;
    LostLast(p, steps, kind, hash);
    forall i: nat | i < n
      ensures LostAt(p, steps, i, kind, hash)
              <==> LostAt(p, steps[..n], i, kind, hash) && !OpenedAt(p, steps, n, kind, hash)
    {
      LostEarlier(p, steps, i, kind, hash);
    }
  }

  lemma LostLast(p: Primitives, steps: seq<Step>, kind: Kind, hash: string)
    requires steps != []
    ensures LostAt(p, steps, |steps| - 1, kind, hash) <==> StruckAt(p, steps, |steps| - 1, kind, hash)
  {}

  lemma LostEarlier(p: Primitives, steps: seq<Step>, i: nat, kind: Kind, hash: string)
    requires i < |steps| - 1
    ensures var n := |steps| - 1;
            LostAt(p, steps, i, kind, hash)
            <==> LostAt(p, steps[..n], i, kind, hash) && !OpenedAt(p, steps, n, kind, hash)
  {
    hide StruckAt, OpenedAt;
    var n := |steps| - 1;
    forall j: nat | j < n
      ensures StruckAt(p, steps[..n], j, kind, hash) == StruckAt(p, steps, j, kind, hash)
      ensures OpenedAt(p, steps[..n], j, kind, hash) == OpenedAt(p, steps, j, kind, hash)
    {
      SamePrefix(p, steps, n, j, kind, hash);
    }
  }

  lemma SamePrefix(p: Primitives, steps: seq<Step>, n: nat, i: nat, kind: Kind, hash: string)
    requires i < n <= |steps|
    ensures StruckAt(p, steps[..n], i, kind, hash) == StruckAt(p, steps, i, kind, hash)
    ensures OpenedAt(p, steps[..n], i, kind, hash) == OpenedAt(p, steps, i, kind, hash)
  {
    hide Strikes, Opens, Run;
    assert steps[..n][..i] == steps[..i];
  }

  // ----- Every object is accounted for -----

  /** An abandoned object is missing and has no writer; a temporary file has a writer, an object in
      place or was abandoned; and so has whatever a skipped store relies on. */
  ghost predicate Accounted(p: Primitives, s: State, kind: Kind, hash: string) {
    && ((kind, hash) in s.abandoned ==> Object(kind, hash) !in s.files && !Owned(p, s, kind, hash))
    && (ObjectTmp(kind, hash) in s.files || (kind, hash) in s.skipped ==>
          Object(kind, hash) in s.files || Owned(p, s, kind, hash) || (kind, hash) in s.abandoned)
  }

  /** A writer leaves only by putting its object in place. */
  lemma WriterStays(p: Primitives, s: State, id: string, chunk: nat, kind: Kind, hash: string)
    requires id in s.running && GoodJobs(p, s) && Owned(p, s, kind, hash)
    ensures var next := AdvanceJob(p, s, s.running[id], chunk);
            Owned(p, next, kind, hash) || Object(kind, hash) in next.files
  {
    hide AdvanceJob, Exclusive;
    var next := AdvanceJob(p, s, s.running[id], chunk);
    var owner :| owner in s.running && s.running[owner].Owns(kind) && s.running[owner].HashOf(p, kind) == hash;
    assert GoodJob(p, s.files, s.running[id]) && s.running[id].id == id;
    OwnerPersists(p, s, id, chunk, owner, kind);
    if Object(kind, hash) !in next.files {
      AdvanceIsLocal(p, s, id, chunk, owner);
    }
  }

  lemma OwnerPersists(p: Primitives, s: State, id: string, chunk: nat, owner: string, kind: Kind)
    requires id in s.running && s.running[id].id == id && GoodJob(p, s.files, s.running[id])
    requires owner in s.running && s.running[owner].Owns(kind)
    ensures var next := AdvanceJob(p, s, s.running[id], chunk);
            || Object(kind, s.running[owner].HashOf(p, kind)) in next.files
            || (owner in next.running && next.running[owner].Owns(kind))
  {}

  /** A new writer has just created the temporary file, and clears the record of any earlier one. */
  lemma NewWriter(p: Primitives, s: State, id: string, chunk: nat, kind: Kind, hash: string)
    requires id in s.running && GoodJobs(p, s)
    requires Owned(p, AdvanceJob(p, s, s.running[id], chunk), kind, hash) && !Owned(p, s, kind, hash)
    ensures (kind, hash) !in AdvanceJob(p, s, s.running[id], chunk).abandoned
  {
    hide AdvanceJob, GoodJob, Exclusive;
    var next := AdvanceJob(p, s, s.running[id], chunk);
    assert s.running[id].id == id;
    var owner :| owner in next.running && next.running[owner].Owns(kind) && next.running[owner].HashOf(p, kind) == hash;
    AdvanceIsLocal(p, s, id, chunk, owner);
    OwnershipClears(p, s, id, chunk, kind);
  }

  lemma OwnershipClears(p: Primitives, s: State, id: string, chunk: nat, kind: Kind)
    requires id in s.running && s.running[id].id == id
    requires var next := AdvanceJob(p, s, s.running[id], chunk); id in next.running && next.running[id].Owns(kind)
    ensures s.running[id].Owns(kind)
            || (kind, s.running[id].HashOf(p, kind)) !in AdvanceJob(p, s, s.running[id], chunk).abandoned
  {}

  /** What appears in an action: an object from its writer, a temporary file with one. */
  lemma AdvanceAdds(p: Primitives, s: State, id: string, chunk: nat, kind: Kind, hash: string)
    requires id in s.running && GoodJobs(p, s)
    ensures var next := AdvanceJob(p, s, s.running[id], chunk);
            && (Object(kind, hash) in next.files ==> Object(kind, hash) in s.files || Owned(p, s, kind, hash))
            && (ObjectTmp(kind, hash) in next.files ==> ObjectTmp(kind, hash) in s.files || Owned(p, next, kind, hash))
            && (Object(kind, hash) in s.files ==> Object(kind, hash) in next.files)
  {
    hide Exclusive;
    var job := s.running[id];
    assert job.id == id && GoodJob(p, s.files, job);
    if job.stage == OpenTmp(kind) && hash == job.HashOf(p, kind) && ObjectTmp(kind, hash) !in s.files {
      var next := AdvanceJob(p, s, job, chunk);
      assert next.running[id].Owns(kind) && next.running[id].HashOf(p, kind) == hash;
    }
    if job.Owns(kind) && job.HashOf(p, kind) == hash {
      assert Owned(p, s, kind, hash);
    }
  }

  /** What the two records gain and lose in an action. */
  lemma AdvanceRecords(p: Primitives, s: State, id: string, chunk: nat, kind: Kind, hash: string)
    requires id in s.running && GoodJobs(p, s)
    ensures var next := AdvanceJob(p, s, s.running[id], chunk);
            && ((kind, hash) in next.skipped ==> (kind, hash) in s.skipped || ObjectTmp(kind, hash) in s.files)
            && ((kind, hash) in next.abandoned ==> (kind, hash) in s.abandoned)
            && ((kind, hash) in s.abandoned ==> (kind, hash) in next.abandoned || Owned(p, next, kind, hash))
  {
    hide Exclusive, GoodJob;
    var job := s.running[id];
    assert job.id == id;
    if job.stage == OpenTmp(kind) && hash == job.HashOf(p, kind) && ObjectTmp(kind, hash) !in s.files {
      var next := AdvanceJob(p, s, job, chunk);
      assert next.running[id].Owns(kind) && next.running[id].HashOf(p, kind) == hash;
    }
  }

  lemma AdvanceAccounted(p: Primitives, s: State, id: string, chunk: nat, kind: Kind, hash: string)
    requires id in s.running && GoodJobs(p, s) && Accounted(p, s, kind, hash)
    ensures Accounted(p, AdvanceJob(p, s, s.running[id], chunk), kind, hash)
  {
    hide AdvanceJob, GoodJobs, Owned;
    var next := AdvanceJob(p, s, s.running[id], chunk);
    AdvanceAdds(p, s, id, chunk, kind, hash);
    AdvanceRecords(p, s, id, chunk, kind, hash);
    if Owned(p, s, kind, hash) {
      WriterStays(p, s, id, chunk, kind, hash);
    } else if Owned(p, next, kind, hash) {
      NewWriter(p, s, id, chunk, kind, hash);
    }
  }

  /** An object has one writer at a time: when it goes, none is left. */
  lemma SoleWriter(p: Primitives, s: State, id: string, kind: Kind)
    requires id in s.running && GoodJobs(p, s) && s.running[id].Owns(kind)
    ensures !Owned(p, s.(running := s.running - {id}), kind, s.running[id].HashOf(p, kind))
  {
    hide GoodJob;
    forall i | i in s.running && s.running[i].Owns(kind) && s.running[i].HashOf(p, kind) == s.running[id].HashOf(p, kind)
      ensures i == id
    {
      assert Exclusive(p, s.running[i], s.running[id]);
      assert s.running[i].id == i && s.running[id].id == id;
    }
  }

  lemma FailAccounted(p: Primitives, s: State, id: string, cleaned: bool, kind: Kind, hash: string)
    requires id in s.running && GoodJobs(p, s) && Accounted(p, s, kind, hash)
    ensures Accounted(p, FailJob(p, s, s.running[id], cleaned), kind, hash)
  {
    hide GoodJob, Exclusive;
    var job := s.running[id];
    var next := FailJob(p, s, job, cleaned);
    assert job.id == id;
    if job.Owns(kind) && job.HashOf(p, kind) == hash {
      SoleWriter(p, s, id, kind);
      var struck := map[id := job];
      assert id in struck && struck[id].Owns(kind);
      assert Object(kind, hash) !in s.files ==> (kind, hash) in Unfinished(p, s.files, struck);
    } else if Owned(p, s, kind, hash) {
      var owner :| owner in s.running && s.running[owner].Owns(kind) && s.running[owner].HashOf(p, kind) == hash;
      assert owner in next.running && next.running[owner] == s.running[owner];
    }
  }

  lemma BeginAccounted(p: Primitives, s: State, job: Job, kind: Kind, hash: string)
    requires GoodJobs(p, s) && Accounted(p, s, kind, hash)
    ensures Accounted(p, Apply(p, s, Begin(job)), kind, hash)
  {
    hide GoodJob, Exclusive;
    var next := Apply(p, s, Begin(job));
    if Owned(p, s, kind, hash) {
      var owner :| owner in s.running && s.running[owner].Owns(kind) && s.running[owner].HashOf(p, kind) == hash;
      assert owner in next.running && next.running[owner] == s.running[owner];
    }
  }

  lemma CrashAccounted(p: Primitives, s: State, kind: Kind, hash: string)
    requires Accounted(p, s, kind, hash)
    ensures Accounted(p, Apply(p, s, Crash), kind, hash)
  {}

  lemma StepAccounted(p: Primitives, s: State, step: Step, kind: Kind, hash: string)
    requires GoodJobs(p, s) && Accounted(p, s, kind, hash)
    ensures Accounted(p, Apply(p, s, step), kind, hash)
  {
    hide GoodJobs, Accounted, AdvanceJob, FailJob;
    match step
    case Begin(job) => BeginAccounted(p, s, job, kind, hash);
    case Advance(id, chunk) => if id in s.running { AdvanceAccounted(p, s, id, chunk, kind, hash); }
    case Fail(id, cleaned) => if id in s.running { FailAccounted(p, s, id, cleaned, kind, hash); }
    case Crash => CrashAccounted(p, s, kind, hash);
  }

  lemma {:induction false} RunAccounted(p: Primitives, s: State, steps: seq<Step>, kind: Kind, hash: string)
    requires Lawful(p) && Inv(p, s) && Accounted(p, s, kind, hash)
    ensures Accounted(p, Run(p, s, steps), kind, hash)
    decreases |steps|
  {
    hide GoodFiles, GoodJobs, AllBacked, Accounted, Apply;
    if steps != [] {
      StepAccounted(p, s, steps[0], kind, hash);
      StepKeepsInv(p, s, steps[0]);
      RunAccounted(p, Apply(p, s, steps[0]), steps[1..], kind, hash);
    }
  }

  // ----- Whose record it is -----

  /** The captures a run starts. */
  function StartedJobs(p: Primitives, s: State, steps: seq<Step>): set<Job>
    decreases |steps|
  {
    if steps == [] then {}
    else Starts(s, steps[0]) + StartedJobs(p, Apply(p, s, steps[0]), steps[1..])
  }

  function Starts(s: State, step: Step): set<Job> {
    if step.Begin? && step.job.id !in s.usedIds then {step.job} else {}
  }

  /** No two of them share an id. */
  lemma {:induction false} StartedOnce(p: Primitives, s: State, steps: seq<Step>, a: Job, b: Job)
    requires a in StartedJobs(p, s, steps)
    ensures a.id !in s.usedIds
    ensures b in StartedJobs(p, s, steps) && a.id == b.id ==> a == b
    decreases |steps|
  {
    var next, rest := Apply(p, s, steps[0]), steps[1..];
    IdsStayUsed(p, s, steps[0]);
    hide Apply;
    if a in StartedJobs(p, next, rest) {
      StartedOnce(p, next, rest, a, b);
    }
    if b in StartedJobs(p, next, rest) {
      StartedOnce(p, next, rest, b, a);
    }
  }

  lemma IdsStayUsed(p: Primitives, s: State, step: Step)
    ensures s.usedIds <= Apply(p, s, step).usedIds
    ensures step.Begin? ==> step.job.id in Apply(p, s, step).usedIds
  {}

  /** One capture at two points of its way. */
  predicate SameCapture(a: Job, b: Job) {
    a == b.(stage := a.stage, written := a.written)
  }

  /** A final metadata file is the record of one of these captures, named after it. */
  ghost predicate Recorded(p: Primitives, files: Files, stamp: string, id: string, jobs: set<Job>) {
    exists job :: job in jobs && job.id == id && job.stamp == stamp
      && RecordAt(p, files, Metadata(stamp, id)) == Some(job.RecordOf(p))
  }

  ghost predicate Known(job: Job, jobs: set<Job>) {
    exists known :: known in jobs && SameCapture(known, job)
  }

  /** Whatever runs or has been recorded is one of these captures, with its own bytes. */
  ghost predicate Attributed(p: Primitives, s: State, jobs: set<Job>) {
    && (forall id :: id in s.running ==> Known(s.running[id], jobs))
    && (forall stamp, id :: Metadata(stamp, id) in s.files ==> Recorded(p, s.files, stamp, id, jobs))
  }

  lemma AdvanceKeepsCapture(p: Primitives, s: State, id: string, chunk: nat, i: string)
    requires id in s.running && s.running[id].id == id && i in AdvanceJob(p, s, s.running[id], chunk).running
    ensures i in s.running && SameCapture(AdvanceJob(p, s, s.running[id], chunk).running[i], s.running[i])
  {}

  /** Only the last action of a capture touches final metadata, and it puts its own record there. */
  lemma AdvanceRecordsOwn(p: Primitives, s: State, id: string, chunk: nat, stamp: string, other: string)
    requires Lawful(p) && id in s.running && s.running[id].id == id && GoodJob(p, s.files, s.running[id])
    requires Metadata(stamp, other) in AdvanceJob(p, s, s.running[id], chunk).files
    ensures var job, path, after := s.running[id], Metadata(stamp, other), AdvanceJob(p, s, s.running[id], chunk).files;
            || (path in s.files && after[path] == s.files[path])
            || (job.id == other && job.stamp == stamp && RecordAt(p, after, path) == Some(job.RecordOf(p)))
  {
    var job := s.running[id];
    assert p.parseJson(p.toJson(job.RecordOf(p))) == Some(job.RecordOf(p));
  }

  lemma KnownRecord(p: Primitives, job: Job, jobs: set<Job>) returns (known: Job)
    requires Known(job, jobs)
    ensures known in jobs && SameCapture(known, job) && known.RecordOf(p) == job.RecordOf(p)
    ensures known.id == job.id && known.stamp == job.stamp
  {
    known :| known in jobs && SameCapture(known, job);
  }

  lemma SameCaptureKnown(a: Job, b: Job, jobs: set<Job>)
    requires SameCapture(a, b) && Known(b, jobs)
    ensures Known(a, jobs)
  {
    var known :| known in jobs && SameCapture(known, b);
    assert SameCapture(known, a);
  }

  lemma AdvanceAttributed(p: Primitives, s: State, id: string, chunk: nat, jobs: set<Job>)
    requires Lawful(p) && GoodJobs(p, s) && id in s.running && Attributed(p, s, jobs)
    ensures Attributed(p, AdvanceJob(p, s, s.running[id], chunk), jobs)
  {
    hide AdvanceJob, GoodJob, Exclusive, SameCapture, Known;
    var next := AdvanceJob(p, s, s.running[id], chunk);
    assert s.running[id].id == id && GoodJob(p, s.files, s.running[id]);
    forall i | i in next.running ensures Known(next.running[i], jobs) {
      AdvanceKeepsCapture(p, s, id, chunk, i);
      SameCaptureKnown(next.running[i], s.running[i], jobs);
    }
    forall stamp, other | Metadata(stamp, other) in next.files ensures Recorded(p, next.files, stamp, other, jobs) {
      AdvanceRecordsOwn(p, s, id, chunk, stamp, other);
      var known := KnownRecord(p, s.running[id], jobs);
      assert Metadata(stamp, other) in s.files ==> Recorded(p, s.files, stamp, other, jobs);
    }
  }

  /** Starting, failing and crashing put nothing under a final metadata path. */
  lemma OtherStepsRecordNothing(p: Primitives, s: State, step: Step, stamp: string, id: string)
    requires !step.Advance? && Metadata(stamp, id) in Apply(p, s, step).files
    ensures Metadata(stamp, id) in s.files
    ensures Apply(p, s, step).files[Metadata(stamp, id)] == s.files[Metadata(stamp, id)]
  {}

  lemma StepAttributed(p: Primitives, s: State, step: Step, jobs: set<Job>)
    requires Lawful(p) && Inv(p, s) && Attributed(p, s, jobs)
    ensures Attributed(p, Apply(p, s, step), jobs + Starts(s, step))
  {
    if step.Advance? {
      assert jobs + Starts(s, step) == jobs;
      if step.id in s.running {
        AdvanceAttributed(p, s, step.id, step.chunk, jobs);
      }
    } else {
      OthersAttributed(p, s, step, jobs);
    }
  }

  lemma OthersAttributed(p: Primitives, s: State, step: Step, jobs: set<Job>)
    requires !step.Advance? && Attributed(p, s, jobs)
    ensures Attributed(p, Apply(p, s, step), jobs + Starts(s, step))
  {
    var next, more := Apply(p, s, step), jobs + Starts(s, step);
    forall id | id in next.running ensures Known(next.running[id], more) {
      if id in s.running && next.running[id] == s.running[id] {
        assert Known(s.running[id], jobs);
        var known := KnownRecord(p, s.running[id], jobs);
        assert known in more;
      } else {
        assert step.job in more && SameCapture(step.job, next.running[id]);
      }
    }
    forall stamp, id | Metadata(stamp, id) in next.files ensures Recorded(p, next.files, stamp, id, more) {
      OtherStepsRecordNothing(p, s, step, stamp, id);
      assert Recorded(p, s.files, stamp, id, jobs);
    }
  }

  lemma {:induction false} RunAttributed(p: Primitives, s: State, steps: seq<Step>, jobs: set<Job>)
    requires Lawful(p) && Inv(p, s) && Attributed(p, s, jobs)
    ensures Attributed(p, Run(p, s, steps), jobs + StartedJobs(p, s, steps))
    decreases |steps|
  {
    hide Inv, Attributed, Apply, Starts;
    if steps == [] {
      assert jobs + StartedJobs(p, s, steps) == jobs;
    } else {
      var next, more := Apply(p, s, steps[0]), jobs + Starts(s, steps[0]);
      StepAttributed(p, s, steps[0], jobs);
      StepKeepsInv(p, s, steps[0]);
      RunAttributed(p, next, steps[1..], more);
      assert more + StartedJobs(p, next, steps[1..]) == jobs + StartedJobs(p, s, steps);
    }
  }

  /** The final metadata file is the whole record of the one capture the run started under that id: its
      stamp, provider and timestamp, and the hashes and sizes of its own bytes. Its references name the
      objects under those hashes. */
  ghost predicate RecordedFor(p: Primitives, steps: seq<Step>, stamp: string, id: string, job: Job)
    requires Metadata(stamp, id) in Run(p, EMPTY, steps).files
  {
    && job in StartedJobs(p, EMPTY, steps) && job.id == id && job.stamp == stamp
    && (forall other :: other in StartedJobs(p, EMPTY, steps) && other.id == id ==> other == job)
    && Run(p, EMPTY, steps).files[Metadata(stamp, id)] == p.toJson(job.RecordOf(p))
    && RecordAt(p, Run(p, EMPTY, steps).files, Metadata(stamp, id)) == Some(job.RecordOf(p))
    && OwnRecord(p, job, job.RecordOf(p))
  }

  /** The record says what was captured, field by field. */
  ghost predicate OwnRecord(p: Primitives, job: Job, r: CaptureRecord) {
    && r.timestamp == job.timestamp && r.uuid == job.id && r.provider == job.provider
    && r.requestHash == p.sha256(job.request) && r.responseHash == p.sha256(job.response)
    && r.reqRef == Object(Req, r.requestHash) && r.respRef == Object(Resp, r.responseHash)
    && r.requestSize == |job.request| && r.responseSize == |job.response|
    && job.HashOf(p, Req) == r.requestHash && job.HashOf(p, Resp) == r.responseHash
  }

  lemma WhoseRecord(p: Primitives, steps: seq<Step>, stamp: string, id: string) returns (job: Job)
    requires Lawful(p) && Metadata(stamp, id) in Run(p, EMPTY, steps).files
    ensures RecordedFor(p, steps, stamp, id, job)
  {
    hide Run, StartedJobs, Inv, Apply;
    EmptyIsGood(p);
    RunAttributed(p, EMPTY, steps, {});
    RunKeepsInv(p, EMPTY, steps);
    var s, jobs := Run(p, EMPTY, steps), {} + StartedJobs(p, EMPTY, steps);
    StoredGood(p, s);
    assert GoodMetadata(p, s.files, stamp, id);
    assert Recorded(p, s.files, stamp, id, jobs);
    job :| job in jobs && job.id == id && job.stamp == stamp
      && RecordAt(p, s.files, Metadata(stamp, id)) == Some(job.RecordOf(p));
    forall other | other in StartedJobs(p, EMPTY, steps) && other.id == id ensures other == job {
      StartedOnce(p, EMPTY, steps, job, other);
    }
  }

  // ----- The exact verdict over all interleavings -----

  /** What a finished record refers to is missing exactly while its writer is busy, and for as long as
      the last writer of it was struck. */
  lemma MissingIff(p: Primitives, steps: seq<Step>, kind: Kind, hash: string)
    requires Lawful(p) && Backed(Run(p, EMPTY, steps), kind, hash)
    ensures var s := Run(p, EMPTY, steps);
            && VerifyObject(p, s.files, Some(Object(kind, hash)), hash)
               == (if Object(kind, hash) in s.files then Pass else Failed(Missing))
            && (Object(kind, hash) !in s.files <==> Lost(p, steps, kind, hash) || Pending(p, s, kind, hash))
  {
    hide VerifyObject, Run, Lost, Inv;
    var s := Run(p, EMPTY, steps);
    EmptyIsGood(p);
    RunKeepsInv(p, EMPTY, steps);
    StoredGood(p, s);
    StoredObjectVerifies(p, s, kind, hash);
    RunAccounted(p, EMPTY, steps, kind, hash);
    AbandonedAreLost(p, steps, kind, hash);
  }

  /** The exact condition, for every run: a final metadata file is the whole record of its own capture, and
      its reference to either of that capture's bodies fails if and only if the last writer of the object was
      struck by an error or a crash before the object was in place, or a writer is still at work on it. Once
      all captures have ended only the first remains. A failing reference is one whose store was skipped. */
  lemma InterleavedVerdict(p: Primitives, steps: seq<Step>, stamp: string, id: string) returns (job: Job)
    requires Lawful(p) && Metadata(stamp, id) in Run(p, EMPTY, steps).files
    ensures RecordedFor(p, steps, stamp, id, job)
    ensures forall kind ::
              var s, h := Run(p, EMPTY, steps), job.HashOf(p, kind);
              && VerifyObject(p, s.files, Some(Object(kind, h)), h)
                 == (if Lost(p, steps, kind, h) || Pending(p, s, kind, h) then Failed(Missing) else Pass)
              && (Object(kind, h) !in s.files ==> (kind, h) in s.skipped)
              && (s.running == map[] ==> !Pending(p, s, kind, h))
  {
    hide VerifyObject, Run, Lost, StartedJobs;
    var s := Run(p, EMPTY, steps);
    job := WhoseRecord(p, steps, stamp, id);
    EmptyIsGood(p);
    RunKeepsInv(p, EMPTY, steps);
    assert Backed(s, Req, job.HashOf(p, Req)) && Backed(s, Resp, job.HashOf(p, Resp));
    MissingIff(p, steps, Req, job.HashOf(p, Req));
    MissingIff(p, steps, Resp, job.HashOf(p, Resp));
  }

  /** No error was followed by a successful removal of a temporary file. */
  predicate NothingRemoved(steps: seq<Step>) {
    forall i :: 0 <= i < |steps| ==> !(steps[i].Fail? && steps[i].cleaned)
  }

  /** Without removals the condition can be read off the directory: a reference of a final record fails
      if and only if the temporary file of its object is there and the object is not. */
  lemma VerdictWithoutRemovals(p: Primitives, steps: seq<Step>, stamp: string, id: string) returns (job: Job)
    requires Lawful(p) && NothingRemoved(steps) && Metadata(stamp, id) in Run(p, EMPTY, steps).files
    ensures RecordedFor(p, steps, stamp, id, job)
    ensures forall kind ::
              var s, h := Run(p, EMPTY, steps), job.HashOf(p, kind);
              VerifyObject(p, s.files, Some(Object(kind, h)), h)
              == (if Unrenamed(s, kind, h) then Failed(Missing) else Pass)
  {
    hide VerifyObject, Run, Lost, Pending, RecordedFor;
    job := InterleavedVerdict(p, steps, stamp, id);
    forall kind ensures
      var s, h := Run(p, EMPTY, steps), job.HashOf(p, kind);
      Lost(p, steps, kind, h) || Pending(p, s, kind, h) <==> Unrenamed(s, kind, h)
    {
      LostIsUnrenamed(p, steps, kind, job.HashOf(p, kind));
    }
  }

  predicate Unrenamed(s: State, kind: Kind, hash: string) {
    ObjectTmp(kind, hash) in s.files && Object(kind, hash) !in s.files
  }

  lemma LostIsUnrenamed(p: Primitives, steps: seq<Step>, kind: Kind, hash: string)
    requires Lawful(p) && NothingRemoved(steps)
    ensures var s := Run(p, EMPTY, steps);
            Lost(p, steps, kind, hash) || Pending(p, s, kind, hash) <==> Unrenamed(s, kind, hash)
  {
    var s := Run(p, EMPTY, steps);
    EmptyIsGood(p);
    RunKeepsInv(p, EMPTY, steps);
    RunAccounted(p, EMPTY, steps, kind, hash);
    AbandonedAreLost(p, steps, kind, hash);
    LeftBehind(p, EMPTY, steps, kind, hash);
    hide Run, Lost, GoodFiles, AllBacked, Exclusive;
    if Pending(p, s, kind, hash) {
      var owner :| owner in s.running && s.running[owner].Owns(kind) && s.running[owner].HashOf(p, kind) == hash;
      assert GoodJob(p, s.files, s.running[owner]);
    }
  }

  lemma StepLeavesBehind(p: Primitives, s: State, step: Step, kind: Kind, hash: string)
    requires Inv(p, s) && Accounted(p, s, kind, hash) && !(step.Fail? && step.cleaned)
    requires (kind, hash) in s.abandoned ==> ObjectTmp(kind, hash) in s.files
    ensures var next := Apply(p, s, step);
            (kind, hash) in next.abandoned ==> ObjectTmp(kind, hash) in next.files
  {
    hide GoodFiles, AllBacked, Exclusive;
    StepAbandons(p, s, step, kind, hash);
    if Strikes(p, s, step, kind, hash) {
      var owner :| owner in s.running && s.running[owner].Owns(kind) && s.running[owner].HashOf(p, kind) == hash;
      assert GoodJob(p, s.files, s.running[owner]);
    } else if step.Advance? && step.id in s.running && (kind, hash) in s.abandoned {
      var job := s.running[step.id];
      assert job.id == step.id && !(job.Owns(kind) && job.HashOf(p, kind) == hash);
    }
  }

  lemma {:induction false} LeftBehind(p: Primitives, s: State, steps: seq<Step>, kind: Kind, hash: string)
    requires Lawful(p) && Inv(p, s) && Accounted(p, s, kind, hash) && NothingRemoved(steps)
    requires (kind, hash) in s.abandoned ==> ObjectTmp(kind, hash) in s.files
    ensures (kind, hash) in Run(p, s, steps).abandoned ==> ObjectTmp(kind, hash) in Run(p, s, steps).files
    decreases |steps|
  {
    hide GoodFiles, GoodJobs, AllBacked, Accounted, Apply;
    if steps != [] {
      StepLeavesBehind(p, s, steps[0], kind, hash);
      StepAccounted(p, s, steps[0], kind, hash);
      StepKeepsInv(p, s, steps[0]);
      LeftBehind(p, Apply(p, s, steps[0]), steps[1..], kind, hash);
    }
  }

  // ----- Runs that strike no writer -----

  /** The step ends this running capture before it is done. */
  predicate Hits(s: State, step: Step, id: string) {
    id in s.running && (step.Crash? || (step.Fail? && step.id == id))
  }

  /** No error and no crash strikes a capture that owns a temporary object file. */
  ghost predicate Unstruck(p: Primitives, steps: seq<Step>) {
    forall i, id, kind :: 0 <= i < |steps| && Hits(Run(p, EMPTY, steps[..i]), steps[i], id)
      ==> !Run(p, EMPTY, steps[..i]).running[id].Owns(kind)
  }

  lemma StrikesAnOwner(p: Primitives, s: State, step: Step, kind: Kind, hash: string)
    requires forall id :: Hits(s, step, id) ==> !s.running[id].Owns(kind)
    ensures !Strikes(p, s, step, kind, hash)
  {}

  /** However captures interleave, and whatever else fails, if no writer is struck then once all have
      ended every metadata record passes verification on both references. */
  lemma UnstruckRunVerifies(p: Primitives, steps: seq<Step>, stamp: string, id: string) returns (job: Job)
    requires Lawful(p) && Unstruck(p, steps) && Run(p, EMPTY, steps).running == map[]
    requires Metadata(stamp, id) in Run(p, EMPTY, steps).files
    ensures RecordedFor(p, steps, stamp, id, job)
    ensures forall kind ::
              var h := job.HashOf(p, kind);
              VerifyObject(p, Run(p, EMPTY, steps).files, Some(Object(kind, h)), h) == Pass
  {
    hide Run, Strikes, VerifyObject, RecordedFor;
    forall kind, hash ensures !Lost(p, steps, kind, hash) {
      forall i | 0 <= i < |steps| ensures !StruckAt(p, steps, i, kind, hash) {
        StrikesAnOwner(p, Run(p, EMPTY, steps[..i]), steps[i], kind, hash);
      }
    }
    job := InterleavedVerdict(p, steps, stamp, id);
  }

  // ----- Which losses heal -----

  /** A lost object whose temporary file was left behind is lost for good: an error whose clean-up
      failed, or a crash. */
  lemma LeftoverIsForever(p: Primitives, steps: seq<Step>, more: seq<Step>, kind: Kind, hash: string)
    requires Lawful(p) && Lost(p, steps, kind, hash) && ObjectTmp(kind, hash) in Run(p, EMPTY, steps).files
    ensures VerifyObject(p, Run(p, EMPTY, steps + more).files, Some(Object(kind, hash)), hash) == Failed(Missing)
  {
    hide VerifyObject, Run, Lost, Inv;
    var s := Run(p, EMPTY, steps);
    EmptyIsGood(p);
    RunKeepsInv(p, EMPTY, steps);
    RunAccounted(p, EMPTY, steps, kind, hash);
    AbandonedAreLost(p, steps, kind, hash);
    assert Orphan(p, s, kind, hash);
    OrphanIsForever(p, s, more, kind, hash);
    RunConcat(p, EMPTY, steps, more);
  }

  /** Once all captures have ended, the next capture of the lost contents repairs every reference to
      them if and only if the temporary file is gone. */
  lemma NextCaptureHealsIff(p: Primitives, steps: seq<Step>, next: Job, kind: Kind) returns (more: seq<Step>)
    requires Lawful(p) && Run(p, EMPTY, steps).running == map[] && next.id !in Run(p, EMPTY, steps).usedIds
    requires Lost(p, steps, kind, next.HashOf(p, kind))
    ensures var h, before, after := next.HashOf(p, kind), Run(p, EMPTY, steps), Run(p, EMPTY, steps + more);
            && after.running == map[]
            && RecordAt(p, after.files, Metadata(next.stamp, next.id)) == Some(next.RecordOf(p))
            && VerifyObject(p, before.files, Some(Object(kind, h)), h) == Failed(Missing)
            && (VerifyObject(p, after.files, Some(Object(kind, h)), h) == Pass
                <==> ObjectTmp(kind, h) !in before.files)
  {
    hide VerifyObject, Run, Lost, Inv, RecordFiles;
    var s, h := Run(p, EMPTY, steps), next.HashOf(p, kind);
    EmptyIsGood(p);
    RunKeepsInv(p, EMPTY, steps);
    StoredGood(p, s);
    RunAccounted(p, EMPTY, steps, kind, h);
    AbandonedAreLost(p, steps, kind, h);
    StoredObjectVerifies(p, s, kind, h);
    more := SoloRun(p, s, next);
    RunConcat(p, EMPTY, steps, more);
    SoloVerdict(p, s, next, kind);
  }

  // ----- The two ways to lose an object -----

  /** Neither the object nor its temporary file is there. */
  predicate Unknown(files: Files, kind: Kind, hash: string) {
    Object(kind, hash) !in files && ObjectTmp(kind, hash) !in files
  }

  lemma StoreLeavesOthers(p: Primitives, files: Files, content: Bytes, hash: string)
    ensures Unknown(StoreFiles(p, files, Req, content), Resp, hash) <==> Unknown(files, Resp, hash)
    ensures Unknown(StoreFiles(p, files, Resp, content), Req, hash) <==> Unknown(files, Req, hash)
  {}

  /** A new capture runs until it has just created the temporary file of this kind. */
  lemma OpenedRun(p: Primitives, s: State, job: Job, kind: Kind) returns (steps: seq<Step>, writing: Job)
    requires job.id !in s.usedIds && Unknown(s.files, kind, job.HashOf(p, kind))
    ensures var r, tmp := Run(p, s, steps), ObjectTmp(kind, job.HashOf(p, kind));
            && Quiet(steps)
            && writing == job.(stage := WriteTmp(kind), written := 0)
            && r.running == s.running[job.id := writing] && r.usedIds == s.usedIds + {job.id}
            && Unknown(r.files - {tmp}, kind, job.HashOf(p, kind)) && tmp in r.files
            && (kind == Req ==> r.files - {tmp} == s.files)
  {
    hide Apply, Run, StoreFiles;
    var reach, written := ReachRun(p, s, job, kind);
    var s1, looking := Run(p, s, reach), job.(stage := CheckObject(kind), written := written);
    writing := job.(stage := WriteTmp(kind), written := 0);
    StoreLeavesOthers(p, s.files, job.request, job.HashOf(p, kind));
    var open := OpenRun(p, s1, looking, kind);
    RunConcat(p, s, reach, open);
    steps := reach + open;
    assert Run(p, s, steps).files - {ObjectTmp(kind, job.HashOf(p, kind))} == s1.files;
  }

  /** A crash: for any contents, of either kind, in any state at rest without them, a capture that crashes
      while it writes them makes the next capture of them finish with a record that does not verify. */
  lemma CrashThenRetry(p: Primitives, s: State, first: Job, retry: Job, kind: Kind) returns (steps: seq<Step>)
    requires Lawful(p) && Inv(p, s) && s.running == map[]
    requires first.id != retry.id && first.id !in s.usedIds && retry.id !in s.usedIds
    requires first.Body(kind) == retry.Body(kind) && Unknown(s.files, kind, retry.HashOf(p, kind))
    ensures var after, h := Run(p, s, steps), retry.HashOf(p, kind);
            && after.running == map[]
            && RecordAt(p, after.files, Metadata(retry.stamp, retry.id)) == Some(retry.RecordOf(p))
            && VerifyObject(p, after.files, Some(Object(kind, h)), h) == Failed(Missing)
  {
    var h := retry.HashOf(p, kind);
    hide Run, VerifyObject, RecordFiles, StoreFiles, Inv;
    var open, writing := OpenedRun(p, s, first, kind);
    RunConcat(p, s, open, [Crash]);
    RunOne(p, Run(p, s, open), Crash);
    var crashed := Run(p, s, open + [Crash]);
    assert crashed.files == Run(p, s, open).files;
    assert Orphan(p, crashed, kind, h);
    var again := SoloRun(p, crashed, retry);
    RunConcat(p, s, open + [Crash], again);
    RunKeepsInv(p, s, open + [Crash]);
    StoredGood(p, crashed);
    SoloVerdict(p, crashed, retry, kind);
    OrphanIsForever(p, crashed, again, kind, h);
    steps := open + [Crash] + again;
  }

  /** An error: for any contents, of either kind, in any state at rest without them, a capture that skips
      beside a writer which then fails and cleans up ends with a record that does not verify, without a
      crash and with nothing left in the directory that would show why. */
  lemma SkipBesideFailure(p: Primitives, s: State, writer: Job, other: Job, kind: Kind) returns (steps: seq<Step>)
    requires Lawful(p) && s.running == map[]
    requires writer.id != other.id && writer.id !in s.usedIds && other.id !in s.usedIds
    requires writer.Body(kind) == other.Body(kind) && Unknown(s.files, kind, other.HashOf(p, kind))
    ensures var after, h := Run(p, s, steps), other.HashOf(p, kind);
            && after.running == map[] && Crash !in steps
            && RecordAt(p, after.files, Metadata(other.stamp, other.id)) == Some(other.RecordOf(p))
            && VerifyObject(p, after.files, Some(Object(kind, h)), h) == Failed(Missing)
            && ObjectTmp(kind, h) !in after.files
  {
    hide Apply, Run, StoreFiles;
    var race, skipped := SkipThenFail(p, s, writer, other, kind);
    var s1 := Run(p, s, race);
    var finish := FinishRun(p, s1, skipped, kind);
    assert skipped.RecordOf(p) == other.RecordOf(p);
    StoreLeavesOthers(p, s1.files, other.response, other.HashOf(p, kind));
    RunConcat(p, s, race, finish);
    steps := race + finish;
    assert p.parseJson(p.toJson(other.RecordOf(p))) == Some(other.RecordOf(p));
  }

  /** The race: the other capture comes to look, the writer opens its temporary file, the other skips, the
      writer fails. */
  lemma SkipThenFail(p: Primitives, s: State, writer: Job, other: Job, kind: Kind)
    returns (steps: seq<Step>, skipped: Job)
    requires s.running == map[]
    requires writer.id != other.id && writer.id !in s.usedIds && other.id !in s.usedIds
    requires writer.Body(kind) == other.Body(kind) && Unknown(s.files, kind, other.HashOf(p, kind))
    ensures Crash !in steps && Unknown(Run(p, s, steps).files, kind, other.HashOf(p, kind))
    ensures skipped == other.(stage := AfterStore(kind), written := skipped.written)
    ensures Run(p, s, steps).running == map[other.id := skipped]
  {
    hide Apply, Run, StoreFiles;
    var h := other.HashOf(p, kind);
    var reach, written := ReachRun(p, s, other, kind);
    var s1, looking := Run(p, s, reach), other.(stage := CheckObject(kind), written := written);
    StoreLeavesOthers(p, s.files, other.request, h);
    var open, writing := OpenedRun(p, s1, writer, kind);
    var s2 := Run(p, s1, open);
    var skip := SkipRun(p, s2, looking, kind);
    var s3, fail := Run(p, s2, skip), Fail(writer.id, true);
    skipped := other.(stage := AfterStore(kind), written := written);
    WriterFails(p, s3, writing, skipped, kind);
    RunOne(p, s3, fail);
    RunConcat(p, s, reach, open);
    RunConcat(p, s, reach + open, skip);
    RunConcat(p, s, reach + open + skip, [fail]);
    steps := reach + open + skip + [fail];
  }

  /** The writer fails and takes its temporary file along. */
  lemma WriterFails(p: Primitives, s: State, writing: Job, other: Job, kind: Kind)
    requires writing.id != other.id && writing.stage == WriteTmp(kind)
    requires s.running == map[other.id := other, writing.id := writing]
    ensures var after := Apply(p, s, Fail(writing.id, true));
            && after.files == s.files - {ObjectTmp(kind, writing.HashOf(p, kind))}
            && after.running == map[other.id := other]
  {}
}
