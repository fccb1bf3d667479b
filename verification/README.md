# Verified model of recondo's evidence and monitoring core

Recondo captures the traffic between coding agents and model providers, stores it under content
hashes and exports evidence about it. This project models, in Dafny, the parts of it whose
correctness rests on an algorithm or a state machine rather than on a database or a library, and
proves what those parts promise over all inputs, all runs and all interleavings.

| module | what it models |
|---|---|
| `Crc32`, `LittleEndian`, `Zip` | the hand-written ZIP writer of the SOC 2 package and its bitwise CRC, with a reader that follows the records of PKWARE APPNOTE.TXT sections 4.3.7, 4.3.12 and 4.3.16 |
| `RateLimit` | the sliding-window limiter with lazy eviction and periodic cleanup, against a limiter that never forgets |
| `Capture`, `CaptureLoss` | crash-safe capture recording over the content-addressed object store, one filesystem action at a time, `verify`, and exactly what an error or a crash can lose |
| `ChangeTraceability`, `Attestation` | the two walks over SUPERSEDES links |
| `Calendar`, `Schedules` | the export scheduler and the `Date` arithmetic it uses (ECMA-262 section 21.4.1) |
| `RejectionRuns`, `AnomalyEvents` | the rejection detector and the deduplicating event table |
| `AuditCsv` | the audit CSV, against a reader for RFC 4180 section 2 |
| `Availability`, `SpendDetection` | heartbeat gaps and uptime, anomalous spend |
| `McpSessions` | the session registry of the MCP HTTP server as a machine over interleaved steps |

Code that updates something is modelled by methods and classes with loops and fields, each tied by
its contract to a specification function; what is promised is then proved about that function as
lemmas. Protocols whose steps interleave (`Capture`, `McpSessions`) are state machines over their steps.

## What the proofs found

- **A crash or an I/O error can make captures unverifiable.** `store_object` treats an existing
  temporary file as "another writer is writing the same content" and reports success
  (gateway/src/store/mod.rs:70-72). When that writer never finishes, nobody stores the object, yet the
  capture that skipped writes a final metadata record that names it. The comments promise that a crash
  leaves no damage at a final path, and that much is proved (`StoredObjectVerifies`): a reference can
  only be missing, never damaged. `InterleavedVerdict` gives the exact condition over every
  interleaving, error and crash: a reference fails if and only if the last writer of its object was
  struck before the object was in place (or is still at work). `VerdictWithoutRemovals` reads it off the
  directory when no clean-up removed anything, and `UnstruckRunVerifies` shows that all is well when no
  writer is struck, whatever else fails. The two failing families, for any contents, are
  `CrashThenRetry` and `SkipBesideFailure`, the second without a crash and without a trace in the
  directory. A temporary file left behind blocks its object for good (`LeftoverIsForever`); once it is
  gone the next capture of the same contents repairs every reference (`NextCaptureHealsIff`).
- `detected_at` is stored in whole seconds (api/migrations/007_fix-anomaly-events.sql:31-32), so the
  24-hour deduplication holds between recorded times over any run (`RunKeepsValid`), while two inserts
  can come closer. They are 24 hours apart if and only if the first one fell on a whole second
  (`DayBetweenInsertsIff`); `EarlyTwin` gives the failing family.
- The change-traceability export is complete exactly under the condition of `ChangeTraceability.CompleteIff`;
  cycles and branches lose turns, but never duplicate one and never make the visited guard fire. A
  superseded turn precedes its successor exactly when it is not the later of the two
  (`SupersededFirstIff`): the stable sort settles ties the right way.
- A monthly schedule started late in a month passes over a shorter month altogether (`NextMonthLandsOn`),
  and never runs twice in one calendar month (`MonthlyRunsInLaterMonths`).
- **The rate limit needs a clock that never goes back, by not even a millisecond.** Eviction forgets
  for good, so after one reading that steps back one call too many is admitted (`StepBackExceeds`).
  `LimitHoldsIff` gives the exact tolerance: with steps back of at most `back` the limit holds over
  windows up to 60 seconds less `back`, and over no longer ones; likewise forgetting is unobservable
  only without steps back (`ForgettingUnobservableIff`). The bound on the stored keys holds under any
  clock (`KeyBound`).
- The rate limit holds for half-open windows only: a closed window holds up to twice the limit, and for
  every limit some run reaches that (`ClosedWindowBound`, `ClosedWindowCanDouble`).
- The CRC detects every burst of up to four bytes but not every burst of five (`FiveByteBurstMissed`).
- The separation of scheduled runs needs no assumption about the clock at all; the limiter's
  guarantees also hold when the clock moves on inside a call.

## Model

| member | source | states |
|---|---|---|
| Crc32.Compute | api/src/exports/soc2-package.ts:97-110 | the nested loops compute the checksum defined by folding byte steps over the data |
| Crc32.StartsWithOnes | api/src/exports/soc2-package.ts:98-109 | the register starts with all bits set and the result is inverted: data behind four bytes of all ones has the inverted register that starts from zero |
| Crc32.Residue | api/src/exports/soc2-package.ts:97-110 | any data followed by its own checksum leaves the residue 0xDEBB20E3 of the standard CRC-32 |
| Crc32.BitStepsLinear | api/src/exports/soc2-package.ts:101-107 | any number of bit steps is linear over GF(2) |
| Crc32.BitStepsInjective | api/src/exports/soc2-package.ts:101-107 | any number of bit steps loses no information |
| Crc32.RegisterConcat | api/src/exports/soc2-package.ts:98-108 | processing a concatenation is continuing from the register of the first part |
| Crc32.TableFormAgrees | api/src/exports/soc2-package.ts:97-110 | the byte-at-a-time table form of RFC 1952 section 8 computes the same register for data of any length |
| Crc32.CollisionIffNoRemainder | api/src/exports/soc2-package.ts:97-110 | two buffers of one length have the same checksum if and only if their byte-wise difference leaves no remainder |
| Crc32.BurstDetected | api/src/exports/soc2-package.ts:97-110 | two buffers that differ only inside at most four consecutive bytes never share a checksum |
| Crc32.FiveByteBurstMissed | api/src/exports/soc2-package.ts:97-110 | four is the exact bound: two buffers that differ in five consecutive bytes and share a checksum |
| LittleEndian.Read16 | api/src/exports/soc2-package.ts:37-46 | a 16-bit field reads back as the value written |
| LittleEndian.Read32 | api/src/exports/soc2-package.ts:36-44 | a 32-bit field reads back as the value written |
| LittleEndian.Weights32 | api/src/exports/soc2-package.ts:36-44 | the bytes of a field, lowest first, add up to its value |
| Zip.WriteLocalHeader | api/src/exports/soc2-package.ts:34-46 | the in-place writes at numeric offsets lay out exactly the local header record |
| Zip.WriteCentralHeader | api/src/exports/soc2-package.ts:51-69 | the in-place writes lay out exactly the central directory header, with the running offset |
| Zip.WriteEndRecord | api/src/exports/soc2-package.ts:81-89 | the in-place writes lay out exactly the end record |
| Zip.LocalFieldsAt | api/src/exports/soc2-package.ts:34-48 | every field of a local header has its value at the offset APPNOTE.TXT section 4.3.7 gives it, and name and contents follow |
| Zip.CentralFieldsAt | api/src/exports/soc2-package.ts:51-71 | every field of a central header has its value at the offset of section 4.3.12, and the name follows |
| Zip.EndFieldsAt | api/src/exports/soc2-package.ts:81-89 | every field of the end record has its value at the offset of section 4.3.16 |
| Zip.BuildZipBuffer | api/src/exports/soc2-package.ts:22-92 | succeeds if and only if every field can hold its value, and then returns the archive image of the entries with their CRCs |
| Zip.FitsExactly | api/src/exports/soc2-package.ts:42-88 | the fields can hold everything if and only if the entry count and the name lengths fit 16 bits and the two totals fit 32 |
| Zip.LocalLandsAt | api/src/exports/soc2-package.ts:25-73 | every recorded offset lands on the local header of its own entry |
| Zip.CentralLandsAt | api/src/exports/soc2-package.ts:52-79 | every central header lands where the headers before it end, recording the offset of its own entry |
| Zip.ReadBack | api/src/exports/soc2-package.ts:22-92 | any archive image reads back as its members in order if all recorded CRCs are right, and is refused otherwise |
| Zip.RoundTrip | api/src/exports/soc2-package.ts:22-92 | the archive of any expressible entry list reads back as the same names, contents and CRCs in the same order |
| Zip.ArchiveInjective | api/src/exports/soc2-package.ts:22-92 | different entry lists give different archives |
| Zip.BurstDamageRefused | api/src/exports/soc2-package.ts:22-110 | the written archive with any at most four consecutive bytes of any stored contents replaced is refused by the reader |
| Zip.ImageSpliced | api/src/exports/soc2-package.ts:22-92 | the contents of an entry lie uninterrupted at their own place in the archive: replacing bytes there is writing other contents under the same headers |
| RateLimit.RateLimiter.CheckRateLimit | api/src/ratelimit.ts:30-79 | under any clock: the decision on the evicted window, what is granted, the new windows and the reported figures; and for as long as the clock never went back, a call is admitted if and only if its limit is valid and the full, never-evicted log holds fewer admissions of its key in the last 60 seconds; all invariants kept |
| RateLimit.RateLimiter.PeriodicCleanup | api/src/ratelimit.ts:85-101 | every hundredth counted call filters every window and drops the empty ones, and does nothing else |
| RateLimit.RateLimiter.ResetRateLimits | api/src/ratelimit.ts:106-109 | back to the empty history |
| RateLimit.EvictionUnobservable | api/src/ratelimit.ts:51-56 | while no earlier reading was later, the evicted window has exactly the fresh admissions of the full log |
| RateLimit.ForgettingUnobservableIff | api/src/ratelimit.ts:51-101 | over all runs whose readings go back by at most a given amount the limiter grants what one that never forgets grants if and only if that amount is zero |
| RateLimit.Retains | api/src/ratelimit.ts:51-100 | under any clock eviction and cleanup lose no admission later than 60 seconds before the latest reading |
| RateLimit.StoredWindow | api/src/ratelimit.ts:45-79 | under any clock every stored window is non-empty and holds admissions of its own key only; while the clock never goes back it is sorted |
| RateLimit.CleanedKeys | api/src/ratelimit.ts:93-100 | after a cleanup, under any clock, only keys active in the 60 seconds up to its reading are stored, and exactly those unless an earlier reading was later |
| RateLimit.KeyBound | api/src/ratelimit.ts:45-101 | under any clock the stored keys never exceed the keys active at the last cleanup plus the fewer than 100 counted calls since |
| RateLimit.WindowBound | api/src/ratelimit.ts:30-79 | while the clock never goes back, the limiter admits no more calls of a key in any half-open 60-second window than the largest limit it was called with |
| RateLimit.ClosedWindowBound | api/src/ratelimit.ts:52 | while the clock never goes back, no more than twice that limit in any closed 60-second window |
| RateLimit.ClosedWindowCanDouble | api/src/ratelimit.ts:52 | for every limit a run whose clock never goes back and whose closed 60-second window holds exactly twice the limit |
| RateLimit.LimitHoldsIff | api/src/ratelimit.ts:43-101 | the exact tolerance: with readings that go back by at most some amount, the limit holds over windows of a given length if and only if they are shorter than 60 seconds by that amount |
| RateLimit.StepBackExceeds | api/src/ratelimit.ts:52 | for every limit and every amount, a run in which one reading steps back by no more than that and one call too many is admitted in any longer window |
| Capture.StepKeepsInv | gateway/src/capture/mod.rs:18-76 | every filesystem action of every interleaved capture, every I/O error and every crash keeps: whole objects under their own hash, whole metadata records, private temporary files |
| Capture.StoredObjectVerifies | gateway/src/main.rs:613-651 | an object reference passes verification if the object is there and is reported missing otherwise; it is never damaged or mismatched |
| CaptureLoss.InterleavedVerdict | gateway/src/capture/mod.rs:24-75 | in every reachable state every finally named metadata file is the whole record of the one capture started under its id, with that capture's stamp, provider, hashes and sizes, and its reference to either body fails verification if and only if the last writer of that object was struck by an error or a crash before the object was in place, or one is still at work; a failing reference is one whose store was skipped |
| CaptureLoss.AbandonedAreLost | gateway/src/store/mod.rs:45-69 | the objects abandoned in the reached state are exactly those a step of the run struck and no later step opened again |
| CaptureLoss.VerdictWithoutRemovals | gateway/src/store/mod.rs:62-69 | when no clean-up removed a file, a reference of a final record, which is that of its own capture, fails if and only if the temporary file of its object is there and the object is not |
| CaptureLoss.UnstruckRunVerifies | gateway/src/capture/mod.rs:18-76 | however captures interleave, crash and fail, if nothing strikes a capture that owns a temporary object file then every record verifies on both references once all have ended |
| CaptureLoss.LeftoverIsForever | gateway/src/store/mod.rs:48-72 | a lost object whose temporary file was left behind stays missing whatever runs later |
| CaptureLoss.NextCaptureHealsIff | gateway/src/store/mod.rs:41-76 | the next capture of lost contents repairs every reference to them if and only if the temporary file is gone |
| CaptureLoss.SkipBesideFailure | gateway/src/store/mod.rs:65-72 | for any contents of either kind and any state at rest without them, a capture that skips beside a writer which then fails and cleans up ends with a record that does not verify, without a crash and with no temporary file left |
| Capture.FinalsAreForever | gateway/src/capture/mod.rs:68-73 | once named, metadata never changes and objects never disappear, whatever runs later |
| Capture.OrphanIsForever | gateway/src/store/mod.rs:48-72 | an orphaned temporary file blocks its object in every later state: every record naming it fails |
| CaptureLoss.CrashThenRetry | gateway/src/store/mod.rs:48-74 | for any contents of either kind and any state at rest without them, a crash while they are written makes the next capture of them finish with a record that does not verify |
| Capture.DataDir.StoreObject | gateway/src/store/mod.rs:33-77 | the sequential effect and outcome of storing, whatever I/O error strikes it: nothing when the object or its temporary file exists, the compressed object otherwise, and on an error the partial temporary file unless the clean-up removed it |
| Capture.DataDir.RecordCapture | gateway/src/capture/mod.rs:18-76 | the sequential effect and outcome of a capture, whatever I/O errors strike it: both stores, then the whole record under its final name |
| Capture.AttemptIsAllOrNothing | gateway/src/capture/mod.rs:24-75 | whatever errors strike it, a capture that reports success did all its work, one that does not names no metadata, and no object is damaged or taken away |
| Capture.AttemptRun | gateway/src/store/mod.rs:45-75 | whatever I/O errors strike the sequential code, the interleaving machine has a run that leaves the same files |
| Capture.SoloRun | gateway/src/capture/mod.rs:18-76 | the interleaving machine, left alone, runs a capture to completion with the files the sequential code leaves |
| Capture.VerifySession | gateway/src/main.rs:544-604 | the three counts are the turns of each verdict, they add up to all turns, and the exit code is 1 if and only if some turn fails |
| Capture.TurnFailsIffMissing | gateway/src/main.rs:548-589 | in a good data directory a turn fails if and only if one of its references names a missing object |
| ChangeTraceability.BuildTurnData | api/src/exports/change-traceability.ts:89-114 | the map holds the last row of each turn, in order of first appearance |
| ChangeTraceability.IndexLinks | api/src/exports/change-traceability.ts:119-138 | the roots and child lists of the supersedes links inside the artifact's turns |
| ChangeTraceability.RootedListsMeetInStep | api/src/exports/change-traceability.ts:126-172 | two chains of links from roots that meet anywhere are at the same step from the same root, whatever cycles and branches exist |
| ChangeTraceability.GuardNeverFires | api/src/exports/change-traceability.ts:152-154 | the next child of a walk from a root is never a turn already visited |
| ChangeTraceability.WalkFrom | api/src/exports/change-traceability.ts:151-171 | the walk from a root is the whole path of last children and ends only where there is no further child |
| ChangeTraceability.WalkTakesLast | api/src/exports/change-traceability.ts:168-170 | every step of a walk goes to the turn seen last among those that supersede the one before |
| ChangeTraceability.LastSuccessorExported | api/src/exports/change-traceability.ts:119-171 | of the turns that supersede an exported turn exactly the one seen last is exported |
| ChangeTraceability.OrderIsFirstSeen | api/src/exports/change-traceability.ts:100-126 | turns are taken in the order of their first rows |
| ChangeTraceability.EntryIsLastRow | api/src/exports/change-traceability.ts:100-167 | every entry carries, field by field, the data of its turn's last row, and a link only to a turn that has a row too |
| ChangeTraceability.WalksMakeHistory | api/src/exports/change-traceability.ts:141-175 | the sorted entries of all walks are sorted, free of repetition, and exactly the turns on primary paths, each with its own data |
| ChangeTraceability.SortIsStable | api/src/exports/change-traceability.ts:175 | entries with equal timestamps keep the order of the walks |
| ChangeTraceability.SupersededFirstIff | api/src/exports/change-traceability.ts:141-175 | in the export of any links a superseded turn precedes its successor if and only if it is not the later of the two |
| ChangeTraceability.NeverEarlierHistory | api/src/exports/change-traceability.ts:174-185 | if no turn is earlier than the one it supersedes, the export is in the order of the links and opens with a root |
| ChangeTraceability.SupersedesPointsInside | api/src/exports/change-traceability.ts:164-166 | every non-null `supersedes` of the export names another entry of the export |
| ChangeTraceability.CompleteIff | api/src/exports/change-traceability.ts:116-172 | the export holds every turn if and only if no turn is superseded twice, every turn leads back to a root, and no id is empty |
| ChangeTraceability.LaterLinksHistory | api/src/exports/change-traceability.ts:116-185 | strictly later links leave no turn without a root, so that without branches the history holds exactly all turns, in the order of the links and opening with a root |
| ChangeTraceability.HandleChangeTraceability | api/src/exports/change-traceability.ts:24-216 | the status in each case; the history is that of all walks, with the intent and hash of its first entry, the hash of its last, and the numbers of changes and sessions |
| Attestation.CollectProvenance | api/src/attestation.ts:117-190 | the collected turns are exactly the seeds and everything within 100 steps through in-project turns, and each newly found in-project predecessor adds exactly one entry with its own data |
| Attestation.ReachOneMore | api/src/attestation.ts:141-154 | a chain goes on exactly from a turn of the project to the turn it supersedes |
| Attestation.WalkChain | api/src/attestation.ts:131-190 | one walk ends, collects its seed's whole chain up to 100 steps and nothing outside the bound |
| Attestation.RevisitFindsNothingNew | api/src/attestation.ts:138-140 | leaving a cycle at the first turn seen before loses nothing within the bound |
| Attestation.CompleteIff | api/src/attestation.ts:133-189 | the depth bound loses nothing if and only if no seed has a turn 101 steps away that the walks have missed |
| Calendar.CivilRoundTrip | api/src/exports/schedules.ts:26-30 | taking a day number apart gives back the year, month and date it was made of, for every date |
| Calendar.MakeDayIsGregorian | api/src/exports/schedules.ts:26-30 | the calendar is the Gregorian one: the day number of every date in closed form |
| Calendar.SetNextMonthMoves | api/src/exports/schedules.ts:28-30 | one month forward is exactly the length of the starting month forward, December and day 31 included |
| Calendar.NextMonthLandsOn | api/src/exports/schedules.ts:28-30 | it lands on the same date of the next month if and only if that month is long enough, and otherwise as many days into the month after |
| Schedules.ComputeNextRunAt | api/src/exports/schedules.ts:22-33 | the next run is 7 days or the length of the starting month later |
| Schedules.NextRunInCalendar | api/src/exports/schedules.ts:22-33 | in that calendar, a weekly run is 7 days later, and a monthly one on the same date of the next month, counted on when that date does not exist |
| Schedules.ScheduleStore.CreateSchedule | api/src/exports/schedules.ts:42-77 | the status in each case, and a first run one period from now |
| Schedules.ScheduleStore.DeleteSchedule | api/src/exports/schedules.ts:142-171 | the status in each case; exactly the named schedule goes |
| Schedules.ScheduleStore.EvaluateSchedules | api/src/exports/schedules.ts:180-227 | exactly the chosen due schedules (all of them up to 10000) run now and move on, and the count says how many |
| Schedules.RunKeepsConsistent | api/src/exports/schedules.ts:198-218 | evaluating a due schedule keeps each run at least the period of the one before it away, for a monthly schedule the length of that run's own month, under any clock |
| Schedules.RunsApart | api/src/exports/schedules.ts:198-218 | any two runs of a weekly schedule are 7 days per step apart, of a monthly one 28 |
| Schedules.MonthlyRunsInLaterMonths | api/src/exports/schedules.ts:22-33 | every run of a monthly schedule falls in a later calendar month than the one before |
| Schedules.RepeatEvaluates | api/src/exports/schedules.ts:198-221 | nothing stays due if and only if at most 10000 rows were due; otherwise exactly the excess does |
| RejectionRuns.DetectRejectionPatterns | api/src/anomaly-detection/evaluate.ts:268-314 | the recorded sessions are exactly those with three consecutive failures, each with its longest run and the agent and model of its last row |
| RejectionRuns.LongestIsLongest | api/src/anomaly-detection/evaluate.ts:287-292 | the running maximum of the counter is the length of the longest run |
| RejectionRuns.ClosingStepChangesNothing | api/src/anomaly-detection/evaluate.ts:305-314 | the step after the loop changes nothing at all |
| AnomalyEvents.AnomalyStore.PersistAnomalies | api/src/anomaly-detection/evaluate.ts:338-369 | the loop inserts exactly the anomalies no unresolved event blocks, and keeps the keys distinct and the 24-hour spacing |
| AnomalyEvents.EveryAttemptCovered | api/src/anomaly-detection/evaluate.ts:338-369 | after a batch every anomaly of it has an unresolved event of its own session, type and project, recorded less than 24 hours before it was looked for |
| AnomalyEvents.TriplesIndependent | api/src/anomaly-detection/evaluate.ts:341-345 | the rows of one session, type and project are what its own anomalies alone make of its own rows |
| AnomalyEvents.InsertedAre | api/src/anomaly-detection/evaluate.ts:352-368 | every added row has the fields of one of the anomalies, in whole seconds and unresolved |
| AnomalyEvents.BatchKeepsSpaced | api/src/anomaly-detection/evaluate.ts:338-369 | after any batch two unresolved events of one session, type and project are recorded at least 24 hours apart |
| AnomalyEvents.RunKeepsValid | api/src/anomaly-detection/evaluate.ts:338-369 | after any sequential run of evaluations and resolutions two unresolved events of one session, type and project are recorded at least 24 hours apart |
| AnomalyEvents.OnePerBatch | api/src/anomaly-detection/evaluate.ts:338-369 | a batch within 24 hours less a second inserts at most one event per session, type and project |
| AnomalyEvents.DayBetweenInsertsIff | api/src/anomaly-detection/evaluate.ts:345 | every unblocked attempt inserts at least 24 hours after an unresolved twin if and only if that twin was inserted on a whole second |
| AnomalyEvents.EarlyTwin | api/migrations/007_fix-anomaly-events.sql:31-32 | after any insert that is not on a whole second, in any table, a twin is inserted less than 24 hours later |
| AnomalyEvents.AnomalyStore.ResolveAnomaly | api/src/anomaly-detection/resolution.ts:24-66 | the status in each case; exactly the named event is resolved, and the keys and the spacing are kept |
| AuditCsv.FieldBack | api/src/routes/audit.ts:81-86 | an escaped field reads back whatever it contains |
| AuditCsv.CsvRoundTrip | api/src/routes/audit.ts:88-113 | the reader recovers exactly the header and every field of every row |
| AuditCsv.ExportReadsBack | api/src/routes/audit.ts:88-113 | a reader finds the named columns, one row per entry in the same order, and every value in its own column |
| AuditCsv.EscapedIffNeeded | api/src/routes/audit.ts:81-86 | a field is printed unchanged exactly when it has no comma, quote or line end |
| AuditCsv.DecimalBack | api/src/routes/audit.ts:96-105 | a printed integer reads as its value |
| AuditCsv.ExportInjective | api/src/routes/audit.ts:90-113 | two exports are the same text if and only if they export the same entries in the same order, up to null texts printed as empty |
| Availability.HandleAvailability | api/src/monitoring.ts:94-139 | last heartbeat, gap windows with their rounded lengths, and rounded uptime between 0 and 100, none for a single heartbeat |
| Availability.AlertAvailability | api/src/monitoring.ts:338-361 | the alert compares the same unrounded uptime and reports it rounded, between 0 and 100 |
| Availability.Soc2Availability | api/src/exports/soc2.ts:158-182 | the third copy counts the gaps and reports the same uptime, rounded, between 0 and 100 |
| Availability.OneMoreHeartbeat | api/src/monitoring.ts:112-127 | a heartbeat within 90 seconds adds nothing, and a later one adds one gap, its window and the interval less 30 seconds |
| Availability.UptimeIsShare | api/src/monitoring.ts:129-134 | uptime is the share of the span outside the gaps, in percent |
| Availability.TotalGapBound | api/src/monitoring.ts:113-127 | the total gap is at most the span less 30 seconds per gap |
| Availability.UptimeBounds | api/src/monitoring.ts:129-134 | uptime is above 0 and at most 100, and 100 if and only if there is no gap |
| Availability.MoreHeartbeats | api/src/monitoring.ts:112-134 | heartbeats added between the first and the last never lower the uptime, rounded or not |
| SpendDetection.DetectAnomalies | api/src/usage/spend-detection.ts:69-126 | the flagged days with their rounded figures and a ratio of at least 3, the average of the last 30 days before today and three times that average |
| SpendDetection.RecentSlides | api/src/usage/spend-detection.ts:84-93 | the history slides: one more day before today takes the place of the first of thirty |
| SpendDetection.FlaggedOneMore | api/src/usage/spend-detection.ts:106-108 | days are judged one by one, above three times a positive average |
| SpendDetection.FewFlagged | api/src/usage/spend-detection.ts:84-119 | of n history days that feed the average fewer than n/3 are flagged, so at most 9 |
| SpendDetection.ScalingFlagsSameDays | api/src/usage/spend-detection.ts:84-119 | scaling all costs by a positive factor flags the same days |
| SpendDetection.ScalingKeepsRatios | api/src/usage/spend-detection.ts:106-115 | and reports them with the same ratios |
| SpendDetection.TodayAffectsNoOtherDay | api/src/usage/spend-detection.ts:84-119 | today's cost changes neither the average nor any other day's flag |
| McpSessions.StepKeepsInv | mcp/src/http.ts:183-303 | every step of every interleaving keeps the registry, the captured sessions and the deliveries consistent, and rewrites no history |
| McpSessions.AnswersAtOnce | mcp/src/http.ts:183-205 | a request is answered 404 exactly when it names an unknown session and 400 exactly when it names none and does not initialize one; otherwise it is checked against the session it names |
| McpSessions.DeliveredIff | mcp/src/http.ts:126-149 | a request for a session is delivered to that session's transport if and only if its resolved identity agrees on all four fields, and otherwise answered 401 |
| McpSessions.InitializationSucceeds | mcp/src/http.ts:206-242 | an initializing request whose caller resolves gets its transport, its delivery and its session |
| McpSessions.SessionAppearsIff | mcp/src/http.ts:218-225 | a session appears exactly when a transport announces an unused id during its initializing request, and belongs to that caller |
| McpSessions.SessionLeavesIff | mcp/src/http.ts:233-303 | in every reachable state a session leaves the registry exactly by a successfully handled DELETE of its own, the close of its own transport, or the shutdown |
| McpSessions.OnlyTheCreatorGetsThrough | mcp/src/http.ts:126-149 | in every interleaving whatever reaches a session's transport, the initializing request included, comes from a freshly resolved identity that agrees on all four fields with the one the session was created for |
| McpSessions.TransportsAreNotShared | mcp/src/http.ts:218-231 | two sessions never share a transport |
| McpSessions.UnknownSessionIsInert | mcp/src/http.ts:184-199 | a request that names an unknown session is answered 404, touches no session and never reaches a transport, and nothing it is told at any later time has any effect |
| McpSessions.SessionsWereInitialized | mcp/src/http.ts:201-242 | every session that ever existed was opened by an initializing request of the very caller it was created for, delivered to its own transport |

## Left out

- SQL, connection pools, HTTP frameworks, webhooks, TLS, command-line output: query results are input sequences in the order the query states.
- SHA-256, gzip and JSON are parameters; gzip and JSON are assumed to have inverses, SHA-256 nothing at all. UUIDs are assumed never to repeat.
- The UTF-8 encoding of entry names: the model starts from their bytes. Node's limits on buffer sizes are not modelled.
- Power loss without fsync: only a process crash is modelled. Directory creation and the removal of attachment objects (gateway/src/storage/object.rs) are not part of the capture machine.
- In-place growth of the limiter's window objects: a window is a value in the map, since no window object outlives a call.
- `Date.now()` and `NOW()` are parameters; the process time zone is UTC, and the end of the `Date` range (`TimeClip`) is not modelled.
- The order in which the due query returns rows beyond its limit is arbitrary, so the model picks any 10000.
- Timestamps of the change history are ranks in the collation order of `localeCompare`; masking of intents happens before the model.
- The session ids collected by the attestation walk, the summary texts and the remaining sections of the exports.
- The other three anomaly detectors and the score of an anomaly: single comparisons against a baseline. Concurrent evaluations are not modelled; the check and the insert of one evaluation may read different clocks.
- Whether a tool output mentions "error" is an input of the rejection detector.
- Floating-point error: averages, percentages, ratios and their roundings (`toFixed`, `Math.round`) are computed on exact reals.
- Header parsing of `Authorization` and the resolution of an API key: the outcome of a resolution is an arbitrary input of each request.
- SQL validation, private-address filters, GraphQL resolvers, the dashboard and the TUI: adapters and filters without an algorithm of their own.
