/** Crash-safe capture recording (gateway/src/capture/mod.rs) over the content-addressed object
    store (gateway/src/store/mod.rs), and the hash verification of `recondo-gateway verify`
    (gateway/src/main.rs).

    Any number of captures run interleaved, one filesystem action at a time; any of them may fail
    at any action, and the process may crash between any two actions. */
module Capture {
  import opened Basics

  datatype Kind = Req | Resp

  /** `objects/<kind>/<hash>.json.gz`, `objects/<kind>/.<hash>.json.gz.tmp`,
      `captures/<stamp>_<id>.json` and `captures/.tmp_<id>`. */
  datatype Path =
    | Object(kind: Kind, hash: string)
    | ObjectTmp(kind: Kind, hash: string)
    | Metadata(stamp: string, id: string)
    | MetadataTmp(id: string)

  type Files = map<Path, Bytes>

  datatype CaptureRecord = CaptureRecord(
    timestamp: string, uuid: string, provider: string,
    requestHash: string, responseHash: string, reqRef: Path, respRef: Path,
    requestSize: nat, responseSize: nat)

  /** The foreign functions: SHA-256, gzip both ways, JSON both ways. */
  datatype Primitives = Primitives(
    sha256: Bytes -> string,
    gzip: Bytes -> Bytes, gunzip: Bytes -> Option<Bytes>,
    toJson: CaptureRecord -> Bytes, parseJson: Bytes -> Option<CaptureRecord>)

  ghost predicate Lawful(p: Primitives) {
    && (forall b :: p.gunzip(p.gzip(b)) == Some(b))
    && (forall r :: p.parseJson(p.toJson(r)) == Some(r))
  }

  // ----- One running capture -----

  /** The next filesystem action of `record_capture`. The first four are those of `store_object`. */
  datatype Stage =
    | CheckObject(kind: Kind)
    | OpenTmp(kind: Kind)
    | WriteTmp(kind: Kind)
    | RenameObject(kind: Kind)
    | CreateMetadata
    | WriteMetadata
    | RenameMetadata

  datatype Job = Job(
    id: string, timestamp: string, stamp: string, provider: string,
    request: Bytes, response: Bytes, stage: Stage, written: nat)
  {
    function Body(kind: Kind): Bytes {
      if kind == Req then request else response
    }

    function HashOf(p: Primitives, kind: Kind): string {
      p.sha256(Body(kind))
    }

    function RecordOf(p: Primitives): CaptureRecord {
      CaptureRecord(timestamp, id, provider, HashOf(p, Req), HashOf(p, Resp),
                    Object(Req, HashOf(p, Req)), Object(Resp, HashOf(p, Resp)),
                    |request|, |response|)
    }

    /** Has `store_object` for this kind returned? */
    predicate Past(kind: Kind) {
      match stage
      case CheckObject(k) => k == Resp && kind == Req
      case OpenTmp(k) => k == Resp && kind == Req
      case WriteTmp(k) => k == Resp && kind == Req
      case RenameObject(k) => k == Resp && kind == Req
      case _ => true
    }

    /** Does this job own the temporary object file for `kind`? */
    predicate Owns(kind: Kind) {
      stage == WriteTmp(kind) || stage == RenameObject(kind)
    }
  }

  function AfterStore(kind: Kind): Stage {
    if kind == Req then CheckObject(Resp) else CreateMetadata
  }

  // ----- The machine -----

  /** `skipped` remembers every object whose store took the "another writer" branch, and `abandoned`
      every object whose last writer was struck by an error or a crash before the object was in place. */
  datatype State = State(
    files: Files, running: map<string, Job>, usedIds: set<string>,
    skipped: set<(Kind, string)>, abandoned: set<(Kind, string)>)

  datatype Step =
    | Begin(job: Job)
    | Advance(id: string, chunk: nat)
    | Fail(id: string, cleaned: bool)
    | Crash

  const EMPTY: State := State(map[], map[], {}, {}, {})

  function Put(s: State, path: Path, content: Bytes, job: Job): State {
    s.(files := s.files[path := content], running := s.running[job.id := job])
  }

  function Moved(files: Files, from: Path, to: Path): Files {
    if from in files then files[to := files[from]] - {from} else files
  }

  function AdvanceJob(p: Primitives, s: State, job: Job, chunk: nat): State {
    match job.stage
    case CheckObject(k) =>
      var next := if Object(k, job.HashOf(p, k)) in s.files then AfterStore(k) else OpenTmp(k);
      s.(running := s.running[job.id := job.(stage := next)])
    case OpenTmp(k) =>
      var h := job.HashOf(p, k);
      if ObjectTmp(k, h) in s.files
      then s.(running := s.running[job.id := job.(stage := AfterStore(k))], skipped := s.skipped + {(k, h)})
      else Put(s.(abandoned := s.abandoned - {(k, h)}), ObjectTmp(k, h), [], job.(stage := WriteTmp(k), written := 0))
    case WriteTmp(k) =>
      var full := p.gzip(job.Body(k));
      var n := if job.written + chunk <= |full| then job.written + chunk else |full|;
      if job.written == |full|
      then s.(running := s.running[job.id := job.(stage := RenameObject(k))])
      else Put(s, ObjectTmp(k, job.HashOf(p, k)), full[..n], job.(written := n))
    case RenameObject(k) =>
      var h := job.HashOf(p, k);
      s.(files := Moved(s.files, ObjectTmp(k, h), Object(k, h)),
         running := s.running[job.id := job.(stage := AfterStore(k))])
    case CreateMetadata =>
      Put(s, MetadataTmp(job.id), [], job.(stage := WriteMetadata, written := 0))
    case WriteMetadata =>
      var full := p.toJson(job.RecordOf(p));
      var n := if job.written + chunk <= |full| then job.written + chunk else |full|;
      if job.written == |full|
      then s.(running := s.running[job.id := job.(stage := RenameMetadata)])
      else Put(s, MetadataTmp(job.id), full[..n], job.(written := n))
    case RenameMetadata =>
      s.(files := Moved(s.files, MetadataTmp(job.id), Metadata(job.stamp, job.id)),
         running := s.running - {job.id})
  }

  /** The objects that writers among `jobs` have begun and nobody has put in place. */
  function Unfinished(p: Primitives, files: Files, jobs: map<string, Job>): set<(Kind, string)> {
    set id, k | id in jobs && jobs[id].Owns(k) && Object(k, jobs[id].HashOf(p, k)) !in files
      :: (k, jobs[id].HashOf(p, k))
  }

  /** An I/O error ends the capture; a failed object write tries to remove its temporary file. */
  function FailJob(p: Primitives, s: State, job: Job, cleaned: bool): State {
    var files := match job.stage
      case WriteTmp(k) => if cleaned then s.files - {ObjectTmp(k, job.HashOf(p, k))} else s.files
      case RenameObject(k) => if cleaned then s.files - {ObjectTmp(k, job.HashOf(p, k))} else s.files
      case _ => s.files;
    s.(files := files, running := s.running - {job.id},
       abandoned := s.abandoned + Unfinished(p, s.files, map[job.id := job]))
  }

  /** Steps that are not enabled change nothing. */
  function Apply(p: Primitives, s: State, step: Step): State {
    match step
    case Begin(job) =>
      if job.id in s.usedIds then s
      else s.(running := s.running[job.id := job.(stage := CheckObject(Req), written := 0)],
              usedIds := s.usedIds + {job.id})
    case Advance(id, chunk) => if id in s.running then AdvanceJob(p, s, s.running[id], chunk) else s
    case Fail(id, cleaned) => if id in s.running then FailJob(p, s, s.running[id], cleaned) else s
    case Crash => s.(running := map[], abandoned := s.abandoned + Unfinished(p, s.files, s.running))
  }

  function Run(p: Primitives, s: State, steps: seq<Step>): State
    decreases |steps|
  {
    if steps == [] then s else Run(p, Apply(p, s, steps[0]), steps[1..])
  }

  // ----- Verification -----

  datatype Failure = Missing | Decompress | Mismatch
  datatype VerifyResult = Pass | Failed(reason: Failure) | Skip

  function VerifyObject(p: Primitives, files: Files, bytesRef: Option<Path>, expectedHash: string): VerifyResult {
    if bytesRef.None? then Skip
    else if bytesRef.value !in files then Failed(Missing)
    else
      var decompressed := p.gunzip(files[bytesRef.value]);
      if decompressed.None? then Failed(Decompress)
      else if p.sha256(decompressed.value) == expectedHash then Pass
      else Failed(Mismatch)
  }

  /** Verification passes exactly for a reference to a file that decompresses to contents of the expected
      hash, and skips exactly a missing reference; the reason of a failure is the first that applies. */
  lemma VerdictOfObject(p: Primitives, files: Files, bytesRef: Option<Path>, expectedHash: string)
    ensures var v := VerifyObject(p, files, bytesRef, expectedHash);
            && (v == Skip <==> bytesRef == None)
            && (v == Pass
                <==> exists path, content ::
                  bytesRef == Some(path) && path in files && p.gunzip(files[path]) == Some(content)
                  && p.sha256(content) == expectedHash)
            && (v == Failed(Missing) <==> exists path :: bytesRef == Some(path) && path !in files)
            && (v == Failed(Decompress)
                <==> exists path :: bytesRef == Some(path) && path in files && p.gunzip(files[path]) == None)
  {}

  // ----- What every state keeps -----

  /** The contents behind a final object path, once decompressed. */
  function ObjectAt(p: Primitives, files: Files, path: Path): Option<Bytes> {
    if path in files then p.gunzip(files[path]) else None
  }

  function RecordAt(p: Primitives, files: Files, path: Path): Option<CaptureRecord> {
    if path in files then p.parseJson(files[path]) else None
  }

  /** A file at a final object path is a whole object whose contents hash to its name. */
  ghost predicate GoodObject(p: Primitives, files: Files, kind: Kind, hash: string) {
    var path := Object(kind, hash);
    path in files ==>
      var content := ObjectAt(p, files, path);
      content.Some? && files[path] == p.gzip(content.value) && p.sha256(content.value) == hash
  }

  /** A file at a final metadata path is the whole record of the capture it is named after. */
  ghost predicate GoodMetadata(p: Primitives, files: Files, stamp: string, id: string) {
    var path := Metadata(stamp, id);
    path in files ==>
      var record := RecordAt(p, files, path);
      && record.Some? && files[path] == p.toJson(record.value)
      && record.value.uuid == id
      && record.value.reqRef == Object(Req, record.value.requestHash)
      && record.value.respRef == Object(Resp, record.value.responseHash)
  }

  /** Where a running capture stands: its own temporary file holds exactly what it wrote so far. */
  ghost predicate GoodJob(p: Primitives, files: Files, job: Job) {
    match job.stage
    case WriteTmp(k) =>
      var tmp, full := ObjectTmp(k, job.HashOf(p, k)), p.gzip(job.Body(k));
      job.written <= |full| && tmp in files && files[tmp] == full[..job.written]
    case RenameObject(k) =>
      var tmp := ObjectTmp(k, job.HashOf(p, k));
      tmp in files && files[tmp] == p.gzip(job.Body(k))
    case WriteMetadata =>
      var tmp, full := MetadataTmp(job.id), p.toJson(job.RecordOf(p));
      job.written <= |full| && tmp in files && files[tmp] == full[..job.written]
    case RenameMetadata =>
      MetadataTmp(job.id) in files && files[MetadataTmp(job.id)] == p.toJson(job.RecordOf(p))
    case _ => true
  }

  ghost predicate Exclusive(p: Primitives, a: Job, b: Job) {
    forall k :: a.Owns(k) && b.Owns(k) && a.HashOf(p, k) == b.HashOf(p, k) ==> a.id == b.id
  }

  ghost predicate GoodFiles(p: Primitives, s: State) {
    && (forall k, h :: GoodObject(p, s.files, k, h))
    && (forall stamp, id :: GoodMetadata(p, s.files, stamp, id))
    && (forall stamp, id :: Metadata(stamp, id) in s.files ==> id in s.usedIds && id !in s.running)
  }

  ghost predicate GoodJobs(p: Primitives, s: State) {
    && (forall id :: id in s.running ==> s.running[id].id == id && id in s.usedIds && GoodJob(p, s.files, s.running[id]))
    && (forall i, j :: i in s.running && j in s.running ==> Exclusive(p, s.running[i], s.running[j]))
  }

  /** What a record or a running capture relies on is stored, unless its store was skipped. */
  ghost predicate Backed(s: State, kind: Kind, hash: string) {
    Object(kind, hash) in s.files || (kind, hash) in s.skipped
  }

  ghost predicate AllBacked(p: Primitives, s: State) {
    && (forall stamp, id :: Metadata(stamp, id) in s.files ==>
          var record := RecordAt(p, s.files, Metadata(stamp, id));
          record.Some? ==> Backed(s, Req, record.value.requestHash) && Backed(s, Resp, record.value.responseHash))
    && (forall id, k :: id in s.running && s.running[id].Past(k) ==> Backed(s, k, s.running[id].HashOf(p, k)))
  }

  ghost predicate Inv(p: Primitives, s: State) {
    GoodFiles(p, s) && GoodJobs(p, s) && AllBacked(p, s)
  }

  /** Changing one temporary file leaves every job alone that does not own it. */
  lemma TmpKeepsJob(p: Primitives, files: Files, changed: Files, job: Job)
    requires GoodJob(p, files, job)
    requires forall k :: job.Owns(k) && ObjectTmp(k, job.HashOf(p, k)) in files ==>
               ObjectTmp(k, job.HashOf(p, k)) in changed
               && changed[ObjectTmp(k, job.HashOf(p, k))] == files[ObjectTmp(k, job.HashOf(p, k))]
    requires MetadataTmp(job.id) in files ==>
               MetadataTmp(job.id) in changed && changed[MetadataTmp(job.id)] == files[MetadataTmp(job.id)]
    ensures GoodJob(p, changed, job)
  {
    match job.stage
    case WriteTmp(k) => assert job.Owns(k);
    case RenameObject(k) => assert job.Owns(k);
    case _ =>
  }

  lemma AdvanceKeepsFiles(p: Primitives, s: State, id: string, chunk: nat)
    requires Lawful(p) && Inv(p, s) && id in s.running
    ensures GoodFiles(p, AdvanceJob(p, s, s.running[id], chunk))
  {
    hide AllBacked, Exclusive;
    var job := s.running[id];
    var next := AdvanceJob(p, s, job, chunk);
    assert job.id == id && GoodJob(p, s.files, job);
    forall k, h ensures GoodObject(p, next.files, k, h) {
      assert GoodObject(p, s.files, k, h);
      if job.stage == RenameObject(k) && h == job.HashOf(p, k) {
        assert p.gunzip(p.gzip(job.Body(k))) == Some(job.Body(k));
      }
    }
    forall stamp, other ensures GoodMetadata(p, next.files, stamp, other) {
      assert GoodMetadata(p, s.files, stamp, other);
      if job.stage == RenameMetadata && stamp == job.stamp && other == id {
        assert p.parseJson(p.toJson(job.RecordOf(p))) == Some(job.RecordOf(p));
      }
    }
    forall stamp, other | Metadata(stamp, other) in next.files ensures other in next.usedIds && other !in next.running {
      assert Metadata(stamp, other) in s.files || (job.stage == RenameMetadata && other == id);
    }
  }

  lemma AdvanceKeepsJobs(p: Primitives, s: State, id: string, chunk: nat)
    requires Lawful(p) && Inv(p, s) && id in s.running
    ensures GoodJobs(p, AdvanceJob(p, s, s.running[id], chunk))
  {
    hide AllBacked, GoodFiles, Exclusive;
    var job := s.running[id];
    var next := AdvanceJob(p, s, job, chunk);
    assert job.id == id && GoodJob(p, s.files, job);
    forall i | i in next.running
      ensures next.running[i].id == i && i in next.usedIds && GoodJob(p, next.files, next.running[i])
    {
      if i != id {
        OtherJobKeeps(p, s, id, chunk, i);
      } else {
        OwnJobKeeps(p, s, id, chunk);
      }
    }
    forall i, j | i in next.running && j in next.running ensures Exclusive(p, next.running[i], next.running[j]) {
      StillExclusive(p, s, id, chunk, i, j);
    }
  }

  lemma OwnJobKeeps(p: Primitives, s: State, id: string, chunk: nat)
    requires GoodJobs(p, s) && id in s.running
    ensures var next := AdvanceJob(p, s, s.running[id], chunk);
            id in next.running ==> next.running[id].id == id && GoodJob(p, next.files, next.running[id])
  {
    var job := s.running[id];
    assert job.id == id && GoodJob(p, s.files, job);
  }

  lemma OtherJobKeeps(p: Primitives, s: State, id: string, chunk: nat, other: string)
    requires GoodJobs(p, s) && id in s.running && other in s.running && other != id
    ensures var next := AdvanceJob(p, s, s.running[id], chunk);
            other in next.running && next.running[other] == s.running[other] && GoodJob(p, next.files, s.running[other])
  {
    var job, mate := s.running[id], s.running[other];
    assert job.id == id && mate.id == other && GoodJob(p, s.files, mate) && GoodJob(p, s.files, job);
    assert Exclusive(p, job, mate);
    var next := AdvanceJob(p, s, job, chunk);
    TmpKeepsJob(p, s.files, next.files, mate);
  }

  /** A job comes to own a temporary file only by creating it. */
  lemma OwnershipIsCreation(p: Primitives, s: State, id: string, chunk: nat, k: Kind)
    requires id in s.running && s.running[id].id == id
    requires var next := AdvanceJob(p, s, s.running[id], chunk); id in next.running && next.running[id].Owns(k)
    ensures s.running[id].Owns(k) || ObjectTmp(k, s.running[id].HashOf(p, k)) !in s.files
  {}

  /** Only its own job changes, and neither its name nor its contents do. */
  lemma AdvanceIsLocal(p: Primitives, s: State, id: string, chunk: nat, i: string)
    requires id in s.running && s.running[id].id == id
    requires i in AdvanceJob(p, s, s.running[id], chunk).running
    ensures var next := AdvanceJob(p, s, s.running[id], chunk);
            && i in s.running && next.running[i].id == s.running[i].id
            && (forall k :: next.running[i].HashOf(p, k) == s.running[i].HashOf(p, k))
            && (i != id ==> next.running[i] == s.running[i])
  {}

  lemma StillExclusive(p: Primitives, s: State, id: string, chunk: nat, i: string, j: string)
    requires GoodJobs(p, s) && id in s.running
    requires var next := AdvanceJob(p, s, s.running[id], chunk); i in next.running && j in next.running
    ensures var next := AdvanceJob(p, s, s.running[id], chunk);
            Exclusive(p, next.running[i], next.running[j])
  {
    var next := AdvanceJob(p, s, s.running[id], chunk);
    assert s.running[id].id == id;
    hide AdvanceJob;
    AdvanceIsLocal(p, s, id, chunk, i);
    AdvanceIsLocal(p, s, id, chunk, j);
    var a, b := next.running[i], next.running[j];
    assert Exclusive(p, s.running[i], s.running[j]);
    assert GoodJob(p, s.files, s.running[i]) && GoodJob(p, s.files, s.running[j]);
    forall k | a.Owns(k) && b.Owns(k) && a.HashOf(p, k) == b.HashOf(p, k) ensures a.id == b.id {
      if i == id {
        OwnershipIsCreation(p, s, id, chunk, k);
      }
      if j == id {
        OwnershipIsCreation(p, s, id, chunk, k);
      }
    }
  }

  /** A final object path, once filled, stays filled; a skip is remembered for good. */
  lemma AdvanceKeepsBacking(p: Primitives, s: State, id: string, chunk: nat, k: Kind, h: string)
    requires id in s.running && Backed(s, k, h)
    ensures Backed(AdvanceJob(p, s, s.running[id], chunk), k, h)
  {}

  /** `store_object` returns only with the object in place or its store skipped. */
  lemma StoreReturnsBacked(p: Primitives, s: State, id: string, chunk: nat, k: Kind)
    requires id in s.running && s.running[id].id == id && GoodJob(p, s.files, s.running[id])
    requires var next := AdvanceJob(p, s, s.running[id], chunk); id in next.running && next.running[id].Past(k)
    ensures s.running[id].Past(k) || Backed(AdvanceJob(p, s, s.running[id], chunk), k, s.running[id].HashOf(p, k))
  {}

  lemma AdvanceKeepsBacked(p: Primitives, s: State, id: string, chunk: nat)
    requires Lawful(p) && Inv(p, s) && id in s.running
    ensures AllBacked(p, AdvanceJob(p, s, s.running[id], chunk))
  {
    var job := s.running[id];
    var next := AdvanceJob(p, s, job, chunk);
    assert job.id == id && GoodJob(p, s.files, job);
    forall stamp, other | Metadata(stamp, other) in next.files && RecordAt(p, next.files, Metadata(stamp, other)).Some?
      ensures var record := RecordAt(p, next.files, Metadata(stamp, other)).value;
              Backed(next, Req, record.requestHash) && Backed(next, Resp, record.responseHash)
    {
      MetadataOrigin(p, s, id, chunk, stamp, other);
      hide AdvanceJob, Backed;
      var record := RecordAt(p, next.files, Metadata(stamp, other)).value;
      AdvanceKeepsBacking(p, s, id, chunk, Req, record.requestHash);
      AdvanceKeepsBacking(p, s, id, chunk, Resp, record.responseHash);
    }
    forall i, k | i in next.running && next.running[i].Past(k) ensures Backed(next, k, next.running[i].HashOf(p, k)) {
      hide AdvanceJob, Backed;
      AdvanceIsLocal(p, s, id, chunk, i);
      if i == id && !job.Past(k) {
        StoreReturnsBacked(p, s, id, chunk, k);
      } else {
        AdvanceKeepsBacking(p, s, id, chunk, k, s.running[i].HashOf(p, k));
      }
    }
  }

  /** A metadata file was there before or is the record its own capture has just renamed into place. */
  lemma MetadataOrigin(p: Primitives, s: State, id: string, chunk: nat, stamp: string, other: string)
    requires Lawful(p) && Inv(p, s) && id in s.running
    requires Metadata(stamp, other) in AdvanceJob(p, s, s.running[id], chunk).files
    ensures var path := Metadata(stamp, other);
            var record := RecordAt(p, AdvanceJob(p, s, s.running[id], chunk).files, path);
            record.Some? ==>
              Backed(s, Req, record.value.requestHash) && Backed(s, Resp, record.value.responseHash)
  {
    hide GoodFiles, Exclusive;
    var job := s.running[id];
    assert job.id == id && GoodJob(p, s.files, job);
    if job.stage == RenameMetadata && stamp == job.stamp && other == id {
      assert p.parseJson(p.toJson(job.RecordOf(p))) == Some(job.RecordOf(p));
      assert job.Past(Req) && job.Past(Resp);
    } else {
      assert Metadata(stamp, other) in s.files;
    }
  }

  lemma FailKeepsFiles(p: Primitives, s: State, id: string, cleaned: bool)
    requires GoodFiles(p, s) && id in s.running
    ensures GoodFiles(p, FailJob(p, s, s.running[id], cleaned))
  {
    var next := FailJob(p, s, s.running[id], cleaned);
    forall k, h ensures GoodObject(p, next.files, k, h) {
      assert GoodObject(p, s.files, k, h);
    }
    forall stamp, other ensures GoodMetadata(p, next.files, stamp, other) {
      assert GoodMetadata(p, s.files, stamp, other);
    }
  }

  lemma FailKeepsJobs(p: Primitives, s: State, id: string, cleaned: bool)
    requires GoodJobs(p, s) && id in s.running
    ensures GoodJobs(p, FailJob(p, s, s.running[id], cleaned))
  {
    var job := s.running[id];
    var next := FailJob(p, s, job, cleaned);
    forall other | other in next.running ensures GoodJob(p, next.files, next.running[other]) {
      assert GoodJob(p, s.files, s.running[other]) && s.running[other].id == other;
      assert Exclusive(p, job, s.running[other]);
      TmpKeepsJob(p, s.files, next.files, s.running[other]);
    }
  }

  lemma FailKeepsBacked(p: Primitives, s: State, id: string, cleaned: bool)
    requires AllBacked(p, s) && id in s.running
    ensures AllBacked(p, FailJob(p, s, s.running[id], cleaned))
  {}

  lemma FailKeeps(p: Primitives, s: State, id: string, cleaned: bool)
    requires Inv(p, s) && id in s.running
    ensures Inv(p, FailJob(p, s, s.running[id], cleaned))
  {
    hide GoodFiles, GoodJobs, AllBacked, FailJob;
    FailKeepsFiles(p, s, id, cleaned);
    FailKeepsJobs(p, s, id, cleaned);
    FailKeepsBacked(p, s, id, cleaned);
  }

  lemma NewcomerOwnsNothing(p: Primitives, s: State, job: Job, i: string, j: string)
    requires GoodJobs(p, s)
    requires var next := Apply(p, s, Begin(job)); i in next.running && j in next.running
    ensures var next := Apply(p, s, Begin(job)); Exclusive(p, next.running[i], next.running[j])
  {
    hide GoodJob;
    if i in s.running && j in s.running {
      assert Exclusive(p, s.running[i], s.running[j]);
    }
  }

  lemma BeginKeeps(p: Primitives, s: State, job: Job)
    requires Inv(p, s)
    ensures Inv(p, Apply(p, s, Begin(job)))
  {
    hide Exclusive, RecordAt, VerifyObject;
    var next := Apply(p, s, Begin(job));
    assert GoodFiles(p, next) by {
      hide GoodJob, GoodJobs, AllBacked, GoodMetadata, GoodObject;
      forall k, h ensures GoodObject(p, next.files, k, h) {
        assert GoodObject(p, s.files, k, h);
      }
      forall stamp, id ensures GoodMetadata(p, next.files, stamp, id) {
        assert GoodMetadata(p, s.files, stamp, id);
      }
      forall stamp, id | Metadata(stamp, id) in next.files ensures id in next.usedIds && id !in next.running {
        assert Metadata(stamp, id) in s.files;
      }
    }
    assert GoodJobs(p, next) by {
      hide GoodFiles, AllBacked, GoodMetadata, GoodObject;
      forall i, j | i in next.running && j in next.running ensures Exclusive(p, next.running[i], next.running[j]) {
        NewcomerOwnsNothing(p, s, job, i, j);
      }
    }
  }

  lemma CrashKeeps(p: Primitives, s: State)
    requires Inv(p, s)
    ensures Inv(p, Apply(p, s, Crash))
  {}

  /** Every action of every capture, every failure and every crash keeps the invariant. */
  lemma StepKeepsInv(p: Primitives, s: State, step: Step)
    requires Lawful(p) && Inv(p, s)
    ensures Inv(p, Apply(p, s, step))
  {
    hide GoodFiles, GoodJobs, AllBacked, AdvanceJob, FailJob;
    match step
    case Begin(job) => BeginKeeps(p, s, job);
    case Advance(id, chunk) =>
      if id in s.running {
        AdvanceKeepsFiles(p, s, id, chunk);
        AdvanceKeepsJobs(p, s, id, chunk);
        AdvanceKeepsBacked(p, s, id, chunk);
      }
    case Fail(id, cleaned) =>
      if id in s.running {
        FailKeeps(p, s, id, cleaned);
      }
    case Crash => CrashKeeps(p, s);
  }

  lemma {:induction false} RunKeepsInv(p: Primitives, s: State, steps: seq<Step>)
    requires Lawful(p) && Inv(p, s)
    ensures Inv(p, Run(p, s, steps))
    decreases |steps|
  {
    hide Inv, Apply;
    if steps != [] {
      StepKeepsInv(p, s, steps[0]);
      RunKeepsInv(p, Apply(p, s, steps[0]), steps[1..]);
    }
  }

  // ----- What verification can find -----

  /** A stored object always verifies: a reference can be missing, never damaged or mismatched. */
  lemma StoredObjectVerifies(p: Primitives, s: State, kind: Kind, hash: string)
    requires GoodFiles(p, s)
    ensures VerifyObject(p, s.files, Some(Object(kind, hash)), hash)
            == if Object(kind, hash) in s.files then Pass else Failed(Missing)
  {
    assert GoodObject(p, s.files, kind, hash);
  }

  lemma EmptyIsGood(p: Primitives)
    ensures Inv(p, EMPTY)
  {}

  // ----- Nothing final is ever lost or changed -----

  lemma StepKeepsFinals(p: Primitives, s: State, step: Step, path: Path)
    requires Inv(p, s) && path in s.files && (path.Object? || path.Metadata?)
    ensures path in Apply(p, s, step).files
    ensures path.Metadata? ==> Apply(p, s, step).files[path] == s.files[path]
  {
    hide GoodJob, Exclusive, AllBacked;
    if step.Advance? && step.id in s.running {
      assert s.running[step.id].id == step.id;
    }
  }

  /** Once named, metadata never changes and objects never disappear, whatever happens next. */
  lemma {:induction false} FinalsAreForever(p: Primitives, s: State, steps: seq<Step>, path: Path)
    requires Lawful(p) && Inv(p, s) && path in s.files && (path.Object? || path.Metadata?)
    ensures path in Run(p, s, steps).files
    ensures path.Metadata? ==> Run(p, s, steps).files[path] == s.files[path]
    decreases |steps|
  {
    hide Inv, Apply;
    if steps != [] {
      StepKeepsFinals(p, s, steps[0], path);
      StepKeepsInv(p, s, steps[0]);
      FinalsAreForever(p, Apply(p, s, steps[0]), steps[1..], path);
    }
  }

  // ----- The skip branch: an orphaned temporary file blocks its object for good -----

  /** A temporary object file nobody is writing, with no object at its final path. */
  ghost predicate Orphan(p: Primitives, s: State, kind: Kind, hash: string) {
    && ObjectTmp(kind, hash) in s.files && Object(kind, hash) !in s.files
    && forall id :: id in s.running ==> !(s.running[id].Owns(kind) && s.running[id].HashOf(p, kind) == hash)
  }

  lemma StepKeepsOrphan(p: Primitives, s: State, step: Step, kind: Kind, hash: string)
    requires Inv(p, s) && Orphan(p, s, kind, hash)
    ensures Orphan(p, Apply(p, s, step), kind, hash)
  {
    hide GoodFiles, GoodJob, Exclusive, AllBacked;
    if step.Advance? && step.id in s.running {
      assert s.running[step.id].id == step.id;
      AdvanceKeepsOrphan(p, s, step.id, step.chunk, kind, hash);
    }
  }

  lemma AdvanceKeepsOrphan(p: Primitives, s: State, id: string, chunk: nat, kind: Kind, hash: string)
    requires id in s.running && s.running[id].id == id && Orphan(p, s, kind, hash)
    ensures Orphan(p, AdvanceJob(p, s, s.running[id], chunk), kind, hash)
  {
    var next := AdvanceJob(p, s, s.running[id], chunk);
    assert !(s.running[id].Owns(kind) && s.running[id].HashOf(p, kind) == hash);
    forall i | i in next.running
      ensures !(next.running[i].Owns(kind) && next.running[i].HashOf(p, kind) == hash)
    {
      AdvanceIsLocal(p, s, id, chunk, i);
      if i == id && next.running[i].Owns(kind) {
        OwnershipIsCreation(p, s, id, chunk, kind);
      }
    }
  }

  /** Whatever runs afterwards, the object of an orphan is never stored: every record naming it
      fails verification. */
  lemma {:induction false} OrphanIsForever(p: Primitives, s: State, steps: seq<Step>, kind: Kind, hash: string)
    requires Lawful(p) && Inv(p, s) && Orphan(p, s, kind, hash)
    ensures Orphan(p, Run(p, s, steps), kind, hash)
    ensures VerifyObject(p, Run(p, s, steps).files, Some(Object(kind, hash)), hash) == Failed(Missing)
    decreases |steps|
  {
    hide Inv, Apply;
    if steps != [] {
      StepKeepsOrphan(p, s, steps[0], kind, hash);
      StepKeepsInv(p, s, steps[0]);
      OrphanIsForever(p, Apply(p, s, steps[0]), steps[1..], kind, hash);
    }
  }

  lemma StoredGood(p: Primitives, s: State)
    requires Inv(p, s)
    ensures GoodFiles(p, s) && (forall stamp, id :: GoodMetadata(p, s.files, stamp, id))
  {}

  // ----- One capture on its own -----

  /** Nothing fails and the process does not crash. */
  predicate Quiet(steps: seq<Step>) {
    forall i :: 0 <= i < |steps| ==> steps[i].Begin? || steps[i].Advance?
  }

  /** What `store_object` makes of the files when nothing interferes. */
  function StoreFiles(p: Primitives, files: Files, kind: Kind, content: Bytes): Files {
    var h := p.sha256(content);
    if Object(kind, h) in files || ObjectTmp(kind, h) in files then files
    else files[Object(kind, h) := p.gzip(content)]
  }

  /** What `record_capture` makes of the files when nothing interferes. */
  function RecordFiles(p: Primitives, files: Files, job: Job): Files {
    var stored := StoreFiles(p, StoreFiles(p, files, Req, job.request), Resp, job.response);
    stored[Metadata(job.stamp, job.id) := p.toJson(job.RecordOf(p))] - {MetadataTmp(job.id)}
  }

  /** Where an I/O error strikes a file that is being put in place: `written` bytes of it were written,
      and `removed` says whether the clean-up removed them. */
  datatype Fault = NoFault | NoDirectory | NotOpened | NotWritten(written: nat, removed: bool) | NotRenamed(removed: bool)

  function Partly(full: Bytes, written: nat): Bytes {
    if written <= |full| then full[..written] else full
  }

  /** What `store_object` makes of the files when an error may strike it, and whether it succeeds. */
  function StoreAttempt(p: Primitives, files: Files, kind: Kind, content: Bytes, fault: Fault): (Files, bool) {
    var h, full := p.sha256(content), p.gzip(content);
    if fault.NoDirectory? then (files, false)
    else if Object(kind, h) in files then (files, true)
    else if fault.NotOpened? then (files, false)
    else if ObjectTmp(kind, h) in files || fault.NoFault? then (StoreFiles(p, files, kind, content), true)
    else if fault.removed then (files, false)
    else (files[ObjectTmp(kind, h) := if fault.NotWritten? then Partly(full, fault.written) else full], false)
  }

  /** The end of `record_capture`: its temporary file is never cleaned up. */
  function MetadataAttempt(p: Primitives, files: Files, record: CaptureRecord, stamp: string, fault: Fault): (Files, bool) {
    var json, tmp := p.toJson(record), MetadataTmp(record.uuid);
    match fault
    case NoFault => (files[Metadata(stamp, record.uuid) := json] - {tmp}, true)
    case NotWritten(n, _) => (files[tmp := Partly(json, n)], false)
    case NotRenamed(_) => (files[tmp := json], false)
    case _ => (files, false)
  }

  /** What `record_capture` makes of the files, and whether it succeeds. */
  function CaptureAttempt(p: Primitives, files: Files, job: Job, req: Fault, resp: Fault, meta: Fault): (Files, bool) {
    var (f1, ok1) := StoreAttempt(p, files, Req, job.request, req);
    if !ok1 then (f1, false) else
    var (f2, ok2) := StoreAttempt(p, f1, Resp, job.response, resp);
    if !ok2 then (f2, false) else MetadataAttempt(p, f2, job.RecordOf(p), job.stamp, meta)
  }

  lemma CaptureAttemptIs(p: Primitives, files: Files, job: Job, req: Fault, resp: Fault, meta: Fault)
    ensures var (f1, ok1) := StoreAttempt(p, files, Req, job.request, req);
            var (f2, ok2) := StoreAttempt(p, f1, Resp, job.response, resp);
            CaptureAttempt(p, files, job, req, resp, meta)
            == if !ok1 then (f1, false) else if !ok2 then (f2, false)
               else MetadataAttempt(p, f2, job.RecordOf(p), job.stamp, meta)
  {}

  class DataDir {
    const p: Primitives
    var files: Files

    constructor (p: Primitives, files: Files)
      ensures this.p == p && this.files == files
    {
      this.p := p;
      this.files := files;
    }

    method StoreObject(kind: Kind, content: Bytes, fault: Fault) returns (hash: Option<string>)
      modifies `files
      ensures (files, hash.Some?) == StoreAttempt(p, old(files), kind, content, fault)
      ensures hash.Some? ==> hash.value == p.sha256(content)
    {
      if fault.NoDirectory? {
        return None;
      }
      var hexHash := p.sha256(content);
      var filePath, tmpPath := Object(kind, hexHash), ObjectTmp(kind, hexHash);
      if filePath in files {
        return Some(hexHash);
      }
      if fault.NotOpened? {
        return None;
      }
      if tmpPath in files {
        return Some(hexHash);
      }
      var compressed := p.gzip(content);
      files := files[tmpPath := []];
      files := files[tmpPath := if fault.NotWritten? then Partly(compressed, fault.written) else compressed];
      assert files - {tmpPath} == old(files);
      assert files == old(files)[tmpPath := files[tmpPath]];
      if fault.NotWritten? || fault.NotRenamed? {
        if fault.removed {
          files := files - {tmpPath};
        }
        return None;
      }
      files := files[filePath := files[tmpPath]] - {tmpPath};
      assert files == old(files)[filePath := compressed];
      return Some(hexHash);
    }

    method RecordCapture(job: Job, req: Fault, resp: Fault, meta: Fault) returns (ok: bool)
      modifies `files
      ensures (files, ok) == CaptureAttempt(p, old(files), job, req, resp, meta)
    {
      hide StoreAttempt, MetadataAttempt, CaptureAttempt;
      CaptureAttemptIs(p, files, job, req, resp, meta);
      var requestHash := StoreObject(Req, job.request, req);
      if requestHash.None? {
        return false;
      }
      var responseHash := StoreObject(Resp, job.response, resp);
      if responseHash.None? {
        return false;
      }
      var record := CaptureRecord(
        job.timestamp, job.id, job.provider, requestHash.value, responseHash.value,
        Object(Req, requestHash.value), Object(Resp, responseHash.value), |job.request|, |job.response|);
      assert record == job.RecordOf(p);
      ok := WriteMetadata(record, job.stamp, meta);
    }

    method WriteMetadata(record: CaptureRecord, stamp: string, fault: Fault) returns (ok: bool)
      modifies `files
      ensures (files, ok) == MetadataAttempt(p, old(files), record, stamp, fault)
    {
      if fault.NoDirectory? || fault.NotOpened? {
        return false;
      }
      var metadataPath, tmpPath := Metadata(stamp, record.uuid), MetadataTmp(record.uuid);
      var json := p.toJson(record);
      files := files[tmpPath := if fault.NotWritten? then Partly(json, fault.written) else json];
      if fault.NotWritten? || fault.NotRenamed? {
        return false;
      }
      files := files[metadataPath := files[tmpPath]] - {tmpPath};
      assert files == old(files)[metadataPath := json] - {tmpPath};
      return true;
    }
  }

  /** Whatever errors strike it, a capture that reports success has done all its work, one that does not
      has named no metadata, and no object is ever damaged or taken away. */
  lemma AttemptIsAllOrNothing(p: Primitives, s: State, job: Job, req: Fault, resp: Fault, meta: Fault)
    requires Lawful(p) && GoodFiles(p, s) && Metadata(job.stamp, job.id) !in s.files
    ensures var (after, ok) := CaptureAttempt(p, s.files, job, req, resp, meta);
            && (ok ==> after == RecordFiles(p, s.files, job))
            && (ok <==> Metadata(job.stamp, job.id) in after)
            && (forall k, h :: GoodObject(p, after, k, h) && (Object(k, h) in s.files ==> Object(k, h) in after))
  {
    hide StoreAttempt, StoreFiles, GoodObject, MetadataAttempt;
    var (f1, ok1) := StoreAttempt(p, s.files, Req, job.request, req);
    StoreAttemptIsGood(p, s.files, Req, job.request, req);
    if ok1 {
      var (f2, ok2) := StoreAttempt(p, f1, Resp, job.response, resp);
      StoreAttemptIsGood(p, f1, Resp, job.response, resp);
      MetadataAttemptIsGood(p, f2, job.RecordOf(p), job.stamp, meta);
    }
  }

  lemma MetadataAttemptIsGood(p: Primitives, files: Files, record: CaptureRecord, stamp: string, fault: Fault)
    requires forall k, h :: GoodObject(p, files, k, h)
    ensures var (after, ok) := MetadataAttempt(p, files, record, stamp, fault);
            && (ok ==> after == files[Metadata(stamp, record.uuid) := p.toJson(record)] - {MetadataTmp(record.uuid)})
            && (ok || Metadata(stamp, record.uuid) in files <==> Metadata(stamp, record.uuid) in after)
            && (forall k, h :: GoodObject(p, after, k, h) && (Object(k, h) in files ==> Object(k, h) in after))
  {
    var after := MetadataAttempt(p, files, record, stamp, fault).0;
    forall k, h ensures GoodObject(p, after, k, h) && (Object(k, h) in files ==> Object(k, h) in after) {
      assert GoodObject(p, files, k, h);
    }
  }

  lemma StoreAttemptIsGood(p: Primitives, files: Files, kind: Kind, content: Bytes, fault: Fault)
    requires Lawful(p) && forall k, h :: GoodObject(p, files, k, h)
    ensures var (after, ok) := StoreAttempt(p, files, kind, content, fault);
            && (ok ==> after == StoreFiles(p, files, kind, content))
            && (forall k, h :: GoodObject(p, after, k, h) && (Object(k, h) in files ==> Object(k, h) in after))
            && (forall stamp, id :: Metadata(stamp, id) in after <==> Metadata(stamp, id) in files)
  {
    var after := StoreAttempt(p, files, kind, content, fault).0;
    forall k, h ensures GoodObject(p, after, k, h) && (Object(k, h) in files ==> Object(k, h) in after) {
      assert GoodObject(p, files, k, h);
      assert p.gunzip(p.gzip(content)) == Some(content);
    }
  }

  /** The exact condition under which a capture that ran to completion on its own verifies: for each
      reference, the object was already stored or no temporary file stood in its way. */
  lemma SoloVerdict(p: Primitives, s: State, job: Job, kind: Kind)
    requires Lawful(p) && GoodFiles(p, s)
    ensures var h := job.HashOf(p, kind);
            var after := RecordFiles(p, s.files, job);
            && RecordAt(p, after, Metadata(job.stamp, job.id)) == Some(job.RecordOf(p))
            && (VerifyObject(p, after, Some(Object(kind, h)), h) == Pass
                <==> Object(kind, h) in s.files || ObjectTmp(kind, h) !in s.files)
  {
    var h := job.HashOf(p, kind);
    var r := job.RecordOf(p);
    assert p.parseJson(p.toJson(r)) == Some(r);
    assert p.gunzip(p.gzip(job.Body(kind))) == Some(job.Body(kind));
    assert GoodObject(p, s.files, kind, h);
  }

  // ----- The sequential capture is a run of the machine -----

  lemma {:induction false} RunConcat(p: Primitives, s: State, a: seq<Step>, b: seq<Step>)
    ensures Run(p, s, a + b) == Run(p, Run(p, s, a), b)
    decreases |a|
  {
    hide Apply;
    if a == [] {
      assert a + b == b;
    } else {
      assert (a + b)[0] == a[0] && (a + b)[1..] == a[1..] + b;
      RunConcat(p, Apply(p, s, a[0]), a[1..], b);
    }
  }

  lemma RunOne(p: Primitives, s: State, step: Step)
    ensures Run(p, s, [step]) == Apply(p, s, step)
  {
    hide Apply;
    assert Run(p, Apply(p, s, step), []) == Apply(p, s, step);
  }

  /** This capture is running, and stands exactly there. */
  predicate Stands(s: State, job: Job) {
    job.id in s.running && s.running[job.id] == job
  }

  /** What a store that nothing interferes with leaves behind, whoever else is running. */
  ghost predicate Stored(p: Primitives, before: State, after: State, job: Job, kind: Kind) {
    && job.id in after.running
    && after.running == before.running[job.id := job.(stage := AfterStore(kind), written := after.running[job.id].written)]
    && after.files == StoreFiles(p, before.files, kind, job.Body(kind))
    && after.usedIds == before.usedIds
  }

  lemma ExtendRun(p: Primitives, s: State, steps: seq<Step>, step: Step)
    requires Quiet(steps) && (step.Begin? || step.Advance?)
    ensures Run(p, s, steps + [step]) == Apply(p, Run(p, s, steps), step)
    ensures Quiet(steps + [step])
  {
    hide Apply;
    RunConcat(p, s, steps, [step]);
    RunOne(p, Run(p, s, steps), step);
  }

  /** From a freshly created temporary file to the object at its final path. */
  lemma WriteRun(p: Primitives, s: State, job: Job, kind: Kind) returns (steps: seq<Step>)
    requires Stands(s, job) && job.stage == WriteTmp(kind) && job.written == 0
    requires var tmp := ObjectTmp(kind, job.HashOf(p, kind)); tmp in s.files && s.files[tmp] == []
    ensures var tmp, h, full := ObjectTmp(kind, job.HashOf(p, kind)), job.HashOf(p, kind), p.gzip(job.Body(kind));
            Quiet(steps)
            && Run(p, s, steps) == s.(
                 files := s.files[Object(kind, h) := full] - {tmp},
                 running := s.running[job.id := job.(stage := AfterStore(kind), written := |full|)])
  {
    var id, h, full := job.id, job.HashOf(p, kind), p.gzip(job.Body(kind));
    var tmp, go := ObjectTmp(kind, h), Advance(id, |full|);
    steps := [];
    var s1 := s.(files := s.files[tmp := full], running := s.running[id := job.(written := |full|)]);
    if full != [] {
      assert full[..|full|] == full;
      assert Apply(p, s, go) == s1;
      ExtendRun(p, s, steps, go);
      steps := steps + [go];
    } else {
      assert s1 == s;
    }
    var s2 := s1.(running := s.running[id := job.(stage := RenameObject(kind), written := |full|)]);
    WriteEnds(p, s1, job.(written := |full|), kind);
    ExtendRun(p, s, steps, go);
    steps := steps + [go];
    ExtendRun(p, s, steps, go);
    steps := steps + [go];
    assert s1.files[Object(kind, h) := full] - {tmp} == s.files[Object(kind, h) := full] - {tmp};
  }

  lemma WriteEnds(p: Primitives, s: State, job: Job, kind: Kind)
    requires Stands(s, job) && job.stage == WriteTmp(kind) && job.written == |p.gzip(job.Body(kind))|
    requires ObjectTmp(kind, job.HashOf(p, kind)) in s.files
    ensures var go, h := Advance(job.id, job.written), job.HashOf(p, kind);
            var tmp := ObjectTmp(kind, h);
            Apply(p, Apply(p, s, go), go)
            == s.(files := s.files[Object(kind, h) := s.files[tmp]] - {tmp},
                  running := s.running[job.id := job.(stage := AfterStore(kind))])
  {
    var go := Advance(job.id, job.written);
    var s1 := s.(running := s.running[job.id := job.(stage := RenameObject(kind))]);
    assert Apply(p, s, go) == s1;
  }

  /** Both checks in front of the write: the object is absent, and so is its temporary file. */
  lemma OpenRun(p: Primitives, s: State, job: Job, kind: Kind) returns (steps: seq<Step>)
    requires Stands(s, job) && job.stage == CheckObject(kind)
    requires Object(kind, job.HashOf(p, kind)) !in s.files && ObjectTmp(kind, job.HashOf(p, kind)) !in s.files
    ensures Quiet(steps)
    ensures Run(p, s, steps)
            == s.(files := s.files[ObjectTmp(kind, job.HashOf(p, kind)) := []],
                  abandoned := s.abandoned - {(kind, job.HashOf(p, kind))},
                  running := s.running[job.id := job.(stage := WriteTmp(kind), written := 0)])
  {
    var go := Advance(job.id, 0);
    var s1 := s.(running := s.running[job.id := job.(stage := OpenTmp(kind))]);
    assert Apply(p, s, go) == s1;
    ExtendRun(p, s, [], go);
    assert [] + [go] == [go];
    ExtendRun(p, s, [go], go);
    steps := [go] + [go];
  }

  /** One of the two early returns of `store_object`. */
  lemma SkipRun(p: Primitives, s: State, job: Job, kind: Kind) returns (steps: seq<Step>)
    requires Stands(s, job) && job.stage == CheckObject(kind)
    requires Object(kind, job.HashOf(p, kind)) in s.files || ObjectTmp(kind, job.HashOf(p, kind)) in s.files
    ensures Quiet(steps)
    ensures var r := Run(p, s, steps);
            && r.files == s.files && r.usedIds == s.usedIds
            && r.running == s.running[job.id := job.(stage := AfterStore(kind))]
  {
    var go := Advance(job.id, 0);
    ExtendRun(p, s, [], go);
    assert [] + [go] == [go];
    steps := [go];
    if Object(kind, job.HashOf(p, kind)) !in s.files {
      var s1 := s.(running := s.running[job.id := job.(stage := OpenTmp(kind))]);
      assert Apply(p, s, go) == s1;
      ExtendRun(p, s, [go], go);
      steps := [go] + [go];
    }
  }

  lemma StoreRun(p: Primitives, s: State, job: Job, kind: Kind) returns (steps: seq<Step>)
    requires Stands(s, job) && job.stage == CheckObject(kind)
    ensures Stored(p, s, Run(p, s, steps), job, kind) && Quiet(steps)
  {
    hide Apply;
    var h := job.HashOf(p, kind);
    if Object(kind, h) in s.files || ObjectTmp(kind, h) in s.files {
      steps := SkipRun(p, s, job, kind);
    } else {
      var open := OpenRun(p, s, job, kind);
      var writing := job.(stage := WriteTmp(kind), written := 0);
      var write := WriteRun(p, Run(p, s, open), writing, kind);
      RunConcat(p, s, open, write);
      steps := open + write;
    }
  }

  lemma MetadataRun(p: Primitives, s: State, job: Job) returns (steps: seq<Step>)
    requires s.running == map[job.id := job] && job.stage == CreateMetadata
    ensures Quiet(steps) && Run(p, s, steps).running == map[]
    ensures Run(p, s, steps).files
            == s.files[Metadata(job.stamp, job.id) := p.toJson(job.RecordOf(p))] - {MetadataTmp(job.id)}
  {
    var id, full := job.id, p.toJson(job.RecordOf(p));
    var tmp, go := MetadataTmp(id), Advance(id, |full|);
    var s1 := s.(files := s.files[tmp := []], running := map[id := job.(stage := WriteMetadata, written := 0)]);
    assert Apply(p, s, go) == s1;
    ExtendRun(p, s, [], go);
    assert [] + [go] == [go];
    steps := [go];
    var s2 := s.(files := s.files[tmp := full], running := map[id := job.(stage := WriteMetadata, written := |full|)]);
    if full != [] {
      assert full[..|full|] == full;
      assert s1.files[tmp := full] == s2.files;
      assert Apply(p, s1, go) == s2;
      ExtendRun(p, s, steps, go);
      steps := steps + [go];
    }
    MetadataRename(p, s, s2, job, steps);
    steps := steps + [go] + [go];
  }

  lemma MetadataRename(p: Primitives, s: State, s2: State, job: Job, steps: seq<Step>)
    requires Quiet(steps) && Run(p, s, steps) == s2
    requires var full := p.toJson(job.RecordOf(p));
             && s2.files == s.files[MetadataTmp(job.id) := full]
             && s2.running == map[job.id := job.(stage := WriteMetadata, written := |full|)]
    ensures var go := Advance(job.id, |p.toJson(job.RecordOf(p))|);
            var r := Run(p, s, steps + [go] + [go]);
            && Quiet(steps + [go] + [go]) && r.running == map[]
            && r.files == s.files[Metadata(job.stamp, job.id) := p.toJson(job.RecordOf(p))] - {MetadataTmp(job.id)}
  {
    hide Apply;
    var go := Advance(job.id, |p.toJson(job.RecordOf(p))|);
    MetadataEnds(p, s2, job);
    ExtendRun(p, s, steps, go);
    ExtendRun(p, s, steps + [go], go);
  }

  lemma MetadataEnds(p: Primitives, s: State, job: Job)
    requires var full := p.toJson(job.RecordOf(p));
             && MetadataTmp(job.id) in s.files && s.files[MetadataTmp(job.id)] == full
             && s.running == map[job.id := job.(stage := WriteMetadata, written := |full|)]
    ensures var full := p.toJson(job.RecordOf(p));
            var go := Advance(job.id, |full|);
            var r := Apply(p, Apply(p, s, go), go);
            && r.running == map[]
            && r.files == s.files[Metadata(job.stamp, job.id) := full] - {MetadataTmp(job.id)}
  {
    var full := p.toJson(job.RecordOf(p));
    var s1 := s.(running := map[job.id := job.(stage := RenameMetadata, written := |full|)]);
    assert Apply(p, s, Advance(job.id, |full|)) == s1;
  }

  lemma BeginRun(p: Primitives, s: State, job: Job)
    requires job.id !in s.usedIds
    ensures var r := Run(p, s, [Begin(job)]);
            && r.files == s.files && r.usedIds == s.usedIds + {job.id}
            && r.running == s.running[job.id := job.(stage := CheckObject(Req), written := 0)]
  {
    RunOne(p, s, Begin(job));
  }

  /** A new capture, up to where it looks for the object of this kind. */
  lemma ReachRun(p: Primitives, s: State, job: Job, kind: Kind) returns (steps: seq<Step>, written: nat)
    requires job.id !in s.usedIds
    ensures Quiet(steps)
    ensures var r := Run(p, s, steps);
            && r.running == s.running[job.id := job.(stage := CheckObject(kind), written := written)]
            && r.usedIds == s.usedIds + {job.id}
            && r.files == if kind == Req then s.files else StoreFiles(p, s.files, Req, job.request)
  {
    hide Apply, Run, StoreFiles;
    BeginRun(p, s, job);
    steps, written := [Begin(job)], 0;
    if kind == Resp {
      var begun := job.(stage := CheckObject(Req), written := 0);
      var s1 := Run(p, s, steps);
      assert Stands(s1, begun);
      var store := StoreRun(p, s1, begun, Req);
      RunConcat(p, s, steps, store);
      steps := steps + store;
      written := Run(p, s, steps).running[job.id].written;
    }
  }

  /** From where a capture looks for an object of this kind to its end. */
  lemma FinishRun(p: Primitives, s: State, job: Job, kind: Kind) returns (steps: seq<Step>)
    requires s.running == map[job.id := job] && job.stage == AfterStore(kind)
    ensures Quiet(steps) && Run(p, s, steps).running == map[]
    ensures var files := if kind == Req then StoreFiles(p, s.files, Resp, job.response) else s.files;
            Run(p, s, steps).files == files[Metadata(job.stamp, job.id) := p.toJson(job.RecordOf(p))] - {MetadataTmp(job.id)}
  {
    hide Apply, Run, StoreFiles;
    if kind == Req {
      var store := StoreRun(p, s, job, Resp);
      var stored := Run(p, s, store).running[job.id];
      assert Run(p, s, store).running == map[job.id := stored] && stored.RecordOf(p) == job.RecordOf(p);
      var meta := MetadataRun(p, Run(p, s, store), stored);
      RunConcat(p, s, store, meta);
      steps := store + meta;
    } else {
      steps := MetadataRun(p, s, job);
    }
  }

  /** A capture that nothing interferes with runs to completion in the machine, and leaves the very
      files the sequential code leaves. */
  lemma SoloRun(p: Primitives, s: State, job: Job) returns (steps: seq<Step>)
    requires s.running == map[] && job.id !in s.usedIds
    ensures Quiet(steps) && Run(p, s, steps).running == map[]
    ensures Run(p, s, steps).files == RecordFiles(p, s.files, job)
  {
    hide Apply, Run, StoreFiles;
    var reach, written := ReachRun(p, s, job, Req);
    var s1 := Run(p, s, reach);
    var begun := s1.running[job.id];
    assert s1.running == map[job.id := begun] && begun.RecordOf(p) == job.RecordOf(p);
    var store := StoreRun(p, s1, begun, Req);
    var s2 := Run(p, s1, store);
    var stored := s2.running[job.id];
    assert s2.running == map[job.id := stored] && stored.RecordOf(p) == job.RecordOf(p);
    var finish := FinishRun(p, s2, stored, Req);
    RunConcat(p, s, reach, store);
    RunConcat(p, s, reach + store, finish);
    steps := reach + store + finish;
  }

  // ----- The sequential capture with errors is a run of the machine too -----

  /** One more piece of a temporary object file, and then an error. */
  lemma WriteFaultRun(p: Primitives, s: State, job: Job, kind: Kind, written: nat, removed: bool) returns (steps: seq<Step>)
    requires s.running == map[job.id := job] && job.stage == WriteTmp(kind) && job.written == 0
    requires var tmp := ObjectTmp(kind, job.HashOf(p, kind)); tmp in s.files && s.files[tmp] == []
    ensures var tmp, full := ObjectTmp(kind, job.HashOf(p, kind)), p.gzip(job.Body(kind));
            && Run(p, s, steps).running == map[]
            && Run(p, s, steps).files == if removed then s.files - {tmp} else s.files[tmp := Partly(full, written)]
  {
    var tmp, full := ObjectTmp(kind, job.HashOf(p, kind)), p.gzip(job.Body(kind));
    var go, fail := Advance(job.id, written), Fail(job.id, removed);
    if full == [] || written == 0 {
      steps := [fail];
      RunOne(p, s, fail);
      assert Partly(full, written) == [];
      assert s.files == s.files[tmp := Partly(full, written)];
    } else {
      var n := |Partly(full, written)|;
      assert Partly(full, written) == full[..n];
      var s1 := s.(files := s.files[tmp := full[..n]], running := map[job.id := job.(written := n)]);
      assert Apply(p, s, go) == s1;
      steps := [go] + [fail];
      RunConcat(p, s, [go], [fail]);
      RunOne(p, s, go);
      RunOne(p, s1, fail);
      assert s1.files - {tmp} == s.files - {tmp};
    }
  }

  /** A store that an error strikes. */
  lemma StoreFaultRun(p: Primitives, s: State, job: Job, kind: Kind, fault: Fault) returns (steps: seq<Step>)
    requires s.running == map[job.id := job] && job.stage == CheckObject(kind)
    requires !StoreAttempt(p, s.files, kind, job.Body(kind), fault).1
    ensures Run(p, s, steps).running == map[]
    ensures Run(p, s, steps).files == StoreAttempt(p, s.files, kind, job.Body(kind), fault).0
  {
    var fail := Fail(job.id, false);
    if fault.NoDirectory? {
      steps := [fail];
      RunOne(p, s, fail);
    } else if fault.NotOpened? {
      var go := Advance(job.id, 0);
      steps := [go] + [fail];
      RunConcat(p, s, [go], [fail]);
      RunOne(p, s, go);
      RunOne(p, Apply(p, s, go), fail);
    } else {
      hide Run, Apply;
      var open := OpenRun(p, s, job, kind);
      var full := p.gzip(job.Body(kind));
      var write := WriteFaultRun(p, Run(p, s, open), job.(stage := WriteTmp(kind), written := 0), kind,
                                 if fault.NotWritten? then fault.written else |full|, fault.removed);
      RunConcat(p, s, open, write);
      steps := open + write;
      var tmp := ObjectTmp(kind, job.HashOf(p, kind));
      assert Partly(full, |full|) == full;
      assert s.files[tmp := []] - {tmp} == s.files;
    }
  }

  /** The metadata file is created and written up to some point. */
  lemma MetadataPieceRun(p: Primitives, s: State, job: Job, written: nat) returns (steps: seq<Step>, stopped: Job)
    requires s.running == map[job.id := job] && job.stage == CreateMetadata
    ensures stopped.id == job.id && stopped.stage == WriteMetadata
    ensures var full := p.toJson(job.RecordOf(p));
            && Run(p, s, steps).running == map[job.id := stopped]
            && Run(p, s, steps).files == s.files[MetadataTmp(job.id) := Partly(full, written)]
  {
    var tmp, full := MetadataTmp(job.id), p.toJson(job.RecordOf(p));
    var create, go := Advance(job.id, 0), Advance(job.id, written);
    var writing := job.(stage := WriteMetadata, written := 0);
    var s1 := s.(files := s.files[tmp := []], running := map[job.id := writing]);
    assert Apply(p, s, create) == s1;
    RunOne(p, s, create);
    steps, stopped := [create], writing;
    if full == [] || written == 0 {
      assert Partly(full, written) == [];
    } else {
      var n := |Partly(full, written)|;
      assert Partly(full, written) == full[..n] && writing.RecordOf(p) == job.RecordOf(p);
      stopped := writing.(written := n);
      assert Apply(p, s1, go).files == s1.files[tmp := full[..n]];
      assert Apply(p, s1, go).running == s1.running[job.id := stopped];
      hide Apply;
      RunOne(p, s1, go);
      RunConcat(p, s, [create], [go]);
      steps := [create] + [go];
    }
  }

  /** The metadata write that an error strikes. */
  lemma MetadataFaultRun(p: Primitives, s: State, job: Job, fault: Fault) returns (steps: seq<Step>)
    requires s.running == map[job.id := job] && job.stage == CreateMetadata
    requires !MetadataAttempt(p, s.files, job.RecordOf(p), job.stamp, fault).1
    ensures Run(p, s, steps).running == map[]
    ensures Run(p, s, steps).files == MetadataAttempt(p, s.files, job.RecordOf(p), job.stamp, fault).0
  {
    var full, fail := p.toJson(job.RecordOf(p)), Fail(job.id, false);
    if fault.NoDirectory? || fault.NotOpened? {
      steps := [fail];
      RunOne(p, s, fail);
    } else {
      var piece, stopped := MetadataPieceRun(p, s, job, if fault.NotWritten? then fault.written else |full|);
      FailOnlyStops(p, Run(p, s, piece), stopped);
      hide Run, Apply;
      RunOne(p, Run(p, s, piece), fail);
      RunConcat(p, s, piece, [fail]);
      steps := piece + [fail];
      assert Partly(full, |full|) == full;
    }
  }

  lemma FailOnlyStops(p: Primitives, s: State, job: Job)
    requires s.running == map[job.id := job] && job.stage == WriteMetadata
    ensures Apply(p, s, Fail(job.id, false)).files == s.files && Apply(p, s, Fail(job.id, false)).running == map[]
  {}

  /** Whatever errors strike the sequential code, the machine has a run with the same files. */
  lemma AttemptRun(p: Primitives, s: State, job: Job, req: Fault, resp: Fault, meta: Fault) returns (steps: seq<Step>)
    requires s.running == map[] && job.id !in s.usedIds
    ensures Run(p, s, steps).running == map[]
    ensures Run(p, s, steps).files == CaptureAttempt(p, s.files, job, req, resp, meta).0
  {
    hide Apply, Run, StoreAttempt, MetadataAttempt, CaptureAttempt, StoreFiles;
    CaptureAttemptIs(p, s.files, job, req, resp, meta);
    BeginRun(p, s, job);
    var s1 := Run(p, s, [Begin(job)]);
    var begun := s1.running[job.id];
    assert s1.running == map[job.id := begun];
    if !StoreAttempt(p, s.files, Req, job.request, req).1 {
      var fault := StoreFaultRun(p, s1, begun, Req, req);
      RunConcat(p, s, [Begin(job)], fault);
      steps := [Begin(job)] + fault;
    } else {
      var store := StoreRun(p, s1, begun, Req);
      SuccessfulStore(p, s.files, Req, job.request, req);
      var s2 := Run(p, s1, store);
      var stored := s2.running[job.id];
      assert s2.running == map[job.id := stored] && stored.RecordOf(p) == job.RecordOf(p);
      var rest := RestRun(p, s2, stored, resp, meta);
      RunConcat(p, s, [Begin(job)], store);
      RunConcat(p, s, [Begin(job)] + store, rest);
      steps := [Begin(job)] + store + rest;
    }
  }

  lemma SuccessfulStore(p: Primitives, files: Files, kind: Kind, content: Bytes, fault: Fault)
    ensures StoreAttempt(p, files, kind, content, fault).1 ==>
              StoreAttempt(p, files, kind, content, fault).0 == StoreFiles(p, files, kind, content)
  {}

  /** From the second store to the end. */
  lemma RestRun(p: Primitives, s: State, job: Job, resp: Fault, meta: Fault) returns (steps: seq<Step>)
    requires s.running == map[job.id := job] && job.stage == CheckObject(Resp)
    ensures Run(p, s, steps).running == map[]
    ensures var (files, ok) := StoreAttempt(p, s.files, Resp, job.response, resp);
            Run(p, s, steps).files
            == if !ok then files else MetadataAttempt(p, files, job.RecordOf(p), job.stamp, meta).0
  {
    hide Apply, Run, StoreAttempt, MetadataAttempt, StoreFiles;
    if !StoreAttempt(p, s.files, Resp, job.response, resp).1 {
      steps := StoreFaultRun(p, s, job, Resp, resp);
    } else {
      var store := StoreRun(p, s, job, Resp);
      SuccessfulStore(p, s.files, Resp, job.response, resp);
      var s1 := Run(p, s, store);
      var stored := s1.running[job.id];
      assert s1.running == map[job.id := stored] && stored.RecordOf(p) == job.RecordOf(p);
      var last;
      if MetadataAttempt(p, s1.files, stored.RecordOf(p), stored.stamp, meta).1 {
        last := MetadataRun(p, s1, stored);
        SuccessfulMetadata(p, s1.files, stored.RecordOf(p), stored.stamp, meta);
      } else {
        last := MetadataFaultRun(p, s1, stored, meta);
      }
      RunConcat(p, s, store, last);
      steps := store + last;
    }
  }

  lemma SuccessfulMetadata(p: Primitives, files: Files, record: CaptureRecord, stamp: string, fault: Fault)
    ensures MetadataAttempt(p, files, record, stamp, fault).1 ==>
              MetadataAttempt(p, files, record, stamp, fault).0
              == files[Metadata(stamp, record.uuid) := p.toJson(record)] - {MetadataTmp(record.uuid)}
  {}

  // ----- `recondo-gateway verify` -----

  datatype Turn = Turn(reqRef: Option<Path>, requestHash: string, respRef: Option<Path>, responseHash: string)

  datatype Verdict = Passed | Failing | Skipped

  function TurnVerdict(p: Primitives, files: Files, t: Turn): Verdict {
    match (VerifyObject(p, files, t.reqRef, t.requestHash), VerifyObject(p, files, t.respRef, t.responseHash))
    case (Pass, Pass) => Passed
    case (Skip, Skip) => Skipped
    case (Skip, Pass) => Passed
    case (Pass, Skip) => Passed
    case _ => Failing
  }

  /** A turn is skipped exactly when both references are missing, and fails exactly when one of them fails. */
  lemma VerdictOfTurn(p: Primitives, files: Files, t: Turn)
    ensures TurnVerdict(p, files, t) == Skipped <==> t.reqRef == None && t.respRef == None
    ensures TurnVerdict(p, files, t) == Failing
            <==> VerifyObject(p, files, t.reqRef, t.requestHash).Failed?
                 || VerifyObject(p, files, t.respRef, t.responseHash).Failed?
  {}

  /** The turns of a session with the given verdict. */
  function WithVerdict(p: Primitives, files: Files, turns: seq<Turn>, v: Verdict): (n: nat)
    decreases |turns|
  {
    if turns == [] then 0
    else
      var k := |turns| - 1;
      WithVerdict(p, files, turns[..k], v) + if TurnVerdict(p, files, turns[k]) == v then 1 else 0
  }

  method VerifySession(p: Primitives, files: Files, turns: seq<Turn>)
    returns (passCount: nat, failCount: nat, skipCount: nat, exitCode: int)
    ensures passCount == WithVerdict(p, files, turns, Passed)
    ensures failCount == WithVerdict(p, files, turns, Failing)
    ensures skipCount == WithVerdict(p, files, turns, Skipped)
    ensures passCount + failCount + skipCount == |turns|
    ensures exitCode == 1 <==> exists i :: 0 <= i < |turns| && TurnVerdict(p, files, turns[i]) == Failing
    ensures exitCode == 0 || exitCode == 1
  {
    hide VerifyObject;
    passCount, failCount, skipCount := 0, 0, 0;
    for i := 0 to |turns|
      invariant passCount == WithVerdict(p, files, turns[..i], Passed)
      invariant failCount == WithVerdict(p, files, turns[..i], Failing)
      invariant skipCount == WithVerdict(p, files, turns[..i], Skipped)
      invariant passCount + failCount + skipCount == i
      invariant failCount > 0 <==> exists j :: 0 <= j < i && TurnVerdict(p, files, turns[j]) == Failing
    {
      assert turns[..i + 1][..i] == turns[..i];
      var t := turns[i];
      var req := VerifyObject(p, files, t.reqRef, t.requestHash);
      var resp := VerifyObject(p, files, t.respRef, t.responseHash);
      match (req, resp) {
        case (Pass, Pass) => passCount := passCount + 1;
        case (Skip, Skip) => skipCount := skipCount + 1;
        case (Skip, Pass) => passCount := passCount + 1;
        case (Pass, Skip) => passCount := passCount + 1;
        case _ => failCount := failCount + 1;
      }
    }
    assert turns[..|turns|] == turns;
    exitCode := if failCount > 0 then 1 else 0;
  }

  /** In a good data directory a turn fails exactly when one of its references is to a missing object. */
  lemma TurnFailsIffMissing(p: Primitives, s: State, t: Turn)
    requires GoodFiles(p, s)
    requires t.reqRef.Some? ==> t.reqRef.value == Object(Req, t.requestHash)
    requires t.respRef.Some? ==> t.respRef.value == Object(Resp, t.responseHash)
    ensures TurnVerdict(p, s.files, t) == Failing
            <==> (t.reqRef.Some? && t.reqRef.value !in s.files) || (t.respRef.Some? && t.respRef.value !in s.files)
  {
    StoredObjectVerifies(p, s, Req, t.requestHash);
    StoredObjectVerifies(p, s, Resp, t.responseHash);
  }
}
