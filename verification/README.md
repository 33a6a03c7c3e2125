# Verified model of the BIN service's algorithms

The repository is a BIN/IBAN web service. Around its HTTP and database code it contains a number of
self-contained algorithms: an edit distance, a project planner that works on Markdown reports, two request
limiters, a security monitor, an ETL pipeline with rollback, and a seeded shuffle. This project models those
algorithms in Dafny and proves what they promise. Every statement is for all inputs, all graphs, all texts, all
histories or all interleaved runs, as the case may be.

`dafny verify dfyconfig.toml` checks everything. Automatic induction is switched off throughout, so every
inductive proof is written out.

## What is proved, in short

- **Edit distance** (`EditDistance.dfy`). The reference is a list of single-character edits at arbitrary positions.
  The matrix method returns the length of a shortest list, although it looks only at the diagonal on a match; the
  distance is a metric; the 0.8 similarity threshold means that some edit list of at most a fifth of the longer
  length exists.
- **Markdown outline** (`Text.dfy`, `Outline.dfy`, `OutlineLevels.dfy`, `OutlineParser.dfy`). The parser is modelled
  with its mutable sections and stack. The objects it links represent the one forest that has the header sequence
  as its preorder and nests by level. Printing and parsing round-trip at the level of strings, and the forests that
  some text parses to are characterised exactly.
- **Planner** (`TaskGraph.dfy`, `Planner.dfy`, `Phases.dfy`, `Timeline.dfy`). The exhaustive searches return longest
  simple dependency paths on arbitrary graphs, cyclic ones included. For a phase without explicit dependencies the
  search has a closed form. Phases conserve tasks exactly when at most two CRITICAL tasks lie outside Security.
- **Limiters** (`RateLimit.dfy`). Both limiters decide as one definition over the key's own history says, hence agree
  with each other exactly when the cap is positive; other keys are unobservable; a window-length interval admits at
  most 2·cap − 1 requests, and that bound is attained.
- **Security monitor** (`SecurityMonitor.dfy`). Its answers are characterised by the full history of operations.
- **ETL** (`BinTable.dfy`, `VersionHash.dfy`, `Merge.dfy`, `Enrich.dfy`, `Pipeline.dfy`). Effects of a load, a rollback
  and a second load; exactly which loads share a version stamp; conservation in merging; gap filling that never
  overwrites; and, through all stages, that a value the primary source offers for an undisputed field arrives in the
  table.
- **Shuffle** (`Shuffle.dfy`). The exchanges that the words of the seed dictate; they permute the input exactly when one
  seed residue is avoided.
- **Duplicates and percentages** (`KeepBest.dfy`, `Dedupe.dfy`, `Completion.dfy`).

`Sequences.dfy` and `Sorting.dfy` hold what the others share; the latter shows that all stable sorts agree.

## Where the code does not do what it says

The model follows the code. These properties, promised by names, comments or documentation, fail. Each is stated with
the exact condition under which it holds, followed by inputs on which it fails:

- `seededShuffle` (scripts/golden-set/manual-verification.ts:41) divides by 2^32 − 1, so the quotient can be 1. Then
  the first swap reaches one past the array, which gains an undefined element (`Shuffle.SeededShuffle`; the one seed
  residue is `Shuffle.BAD_SEED`).
- The timeline and the work breakdown structure give a phase different durations, even without explicit dependencies
  (`Timeline.TimelineEqualsPlanIff`; `Timeline.TimelineMissesSecurityOrder`).
- `calculateCriticalPathForPhase` (src/analysis/timelineCalculator.ts:88) announces the longest path through
  dependencies but starts only at tasks without any, so with distinct ids it returns one task
  (`Timeline.TimelinePathIsOneTask`, `Timeline.TimelinePathIsLongestIff`; `Timeline.TimelineMissesDependency`).
- `buildPhases` (src/analysis/wbsGenerator.ts:69) drops CRITICAL tasks outside Security after the first two
  (`Phases.NoTaskIsLostIff`; `Phases.ThirdCriticalTaskIsLost`).
- Rolling a version back deletes rows that the load had updated rather than restoring them
  (`BinTable.RollbackRestoresIff`, `BinTable.RollbackRestoresUnlessKnown`; `BinTable.RollbackLosesUpdatedRow`).
- The version stamp is called a content hash (scripts/etl/load.ts:4). It covers only BIN, source, source version and
  confidence, so differences elsewhere do not show (`VersionHash.PreimageIgnoresOtherFields`,
  `Pipeline.EnrichmentKeepsStamp`). Nor does it identify those four fields: nothing separates a confidence from the
  next BIN, and bars inside a field are not escaped. Which loads share a stamp is characterised
  (`VersionHash.PreimagesEqualIff`); without bars inside fields the stamp identifies the four fields exactly if all
  BINs have one length (`VersionHash.DecimalStampIdentifiesIff`; `VersionHash.TwoLengthsCollide`,
  `VersionHash.BarsCollide`).
  Rolling a load back then also reaches rows of another one with its stamp (`VersionHash.RollbackReachesEarlierLoadIff`).
- A merge without conflict is announced to use the first available value (scripts/etl/merge.ts:208) but uses the
  primary record's, which may be missing (`Merge.UndisputedFieldIsFirstAvailableIff`; `Merge.FirstAvailableIsMissed`).
- Only different values are announced to count as a conflict (scripts/etl/merge.ts:190), but an undefined field counts
  as a value of its own (`Merge.LoneValueIsDisputedIff`; `Merge.UndefinedIsDisputed`).
- `totalRecords` counts a BIN at most twice (`Merge.TotalRecordsIff`; `Merge.ThirdRecordIsNotCounted`), and
  `conflictsResolved` is always 0, because conflicts are resolved without being recorded (`Merge.ConflictsReportedIff`;
  any input with the group of `Merge.UndefinedIsDisputed`).
- Authentication failures are forgotten by every cleanup until there are ten of them, so an address is blocked only
  after ten failures between two cleanups (`SecurityMonitor.BlockedIff`; `SecurityMonitor.PacedEventsNeverBlock`).

## Assumptions

- Clocks never go back; the monitor's clock is past its first hour, so that time 0 can stand for "never".
- Where a statement needs non-negative estimates it is because the estimator only hands out positive ones
  (src/analysis/priorityCalculator.ts:104-149).
- Numbers are exact: reals for percentages, similarities, days and confidences, integers for the generator. The
  generator's product is proved to stay below 2^53.
- Queries that fail, times of upserts, answers of the remote lookup, the digest, the printing of a confidence, and the
  conflict resolver are parameters that may behave arbitrarily.
- BINs are compared as digit strings, in lexicographic order. Confidences are whole numbers from 0 to 100 where
  statements about stamps say so, because normalization rounds them (scripts/etl/normalize.ts:281). A printing of
  confidences may be arbitrary, but a statement that a stamp identifies them assumes that the confidences at hand print
  differently; decimal printing (`VersionHash.Show`) is proved to meet that.

## Model

| member | source | states |
|---|---|---|
| EditDistance.LevenshteinDistance | scripts/golden-set/validate.ts:215-241 | the filled matrix yields the edit distance: some edit list of that length exists and none is shorter |
| EditDistance.DistanceIsEditDistance | scripts/golden-set/validate.ts:215-241 | the recurrence tabulated by the matrix is the least number of single-character edits |
| EditDistance.DistanceIsMinimumOfThree | scripts/golden-set/validate.ts:228-236 | taking only the diagonal on a match loses nothing: each cell is the minimum over all three predecessors |
| EditDistance.NeighboursDifferByAtMostOne | scripts/golden-set/validate.ts:226-238 | adjacent cells differ by at most one |
| EditDistance.ScriptsAreNoShorter | scripts/golden-set/validate.ts:215-241 | no edit list, whatever its positions and order, is shorter than the distance |
| EditDistance.ShortestScript | scripts/golden-set/validate.ts:215-241 | an edit list of exactly the distance exists |
| EditDistance.TriangleInequality | scripts/golden-set/validate.ts:215-241 | the distance obeys the triangle inequality |
| EditDistance.DistanceSymmetric | scripts/golden-set/validate.ts:202-209 | the distance is symmetric, so it does not matter which string is called the longer |
| EditDistance.DistanceZeroIffEqual | scripts/golden-set/validate.ts:215-241 | distance 0 means equal strings |
| EditDistance.DistanceBounds | scripts/golden-set/validate.ts:202-210 | the distance lies between the length difference and the longer length |
| EditDistance.CalculateSimilarity | scripts/golden-set/validate.ts:202-210 | the similarity is the share of the longer length left over by the distance, 1 for two empty strings |
| EditDistance.SimilarityIs | scripts/golden-set/validate.ts:202-210 | times the longer length, the similarity is what a shortest edit list leaves of that length |
| EditDistance.SimilarityLaws | scripts/golden-set/validate.ts:202-210 | similarity is a symmetric score in [0,1], 1 only for equal strings |
| EditDistance.ThresholdMeaning | scripts/golden-set/validate.ts:147-166 | a name passes the 0.8 threshold exactly when an edit list of at most a fifth of the longer length exists |
| Text.SplitOfJoin | src/analysis/markdownParser.ts:16-16 | splitting at line feeds undoes joining with them |
| Text.SplitIff | src/analysis/markdownParser.ts:16-16 | the lines of a text are the one list of lines without line feeds that joined make the text |
| Text.JoinOfParts | src/analysis/markdownParser.ts:67-68 | joining puts one line feed between neighbours and nothing else |
| Text.TrimIff | src/analysis/markdownParser.ts:23-24 | the trimmed text has white space at neither end, and the rest is white space at the ends; nothing else is a trimmed text |
| Text.SpaceCodes | src/analysis/markdownParser.ts:27-27 | which code points are white space, and which end a line |
| Outline.ForestIsUnique | src/analysis/markdownParser.ts:50-62 | one forest has the given preorder, children deeper than parents and sibling levels never increasing: the one the levels describe |
| Outline.PreorderOfForest | src/analysis/markdownParser.ts:36-62 | no entry is lost, repeated or reordered by nesting |
| Outline.ParseOfPrint | src/analysis/markdownParser.ts:15-80 | every well-nested forest of printable entries survives printing to text and parsing |
| Outline.ParseIsPrintable | src/analysis/markdownParser.ts:15-80 | every text parses to a well-nested forest with levels 1..6, trimmed titles and trimmed header-free contents |
| Outline.ParseableIff | src/analysis/markdownParser.ts:15-80 | a forest is the parse of some text if and only if it is well nested and printable |
| Outline.ParseIsStable | src/analysis/markdownParser.ts:15-80 | printing a parse and parsing it again gives the same forest |
| Outline.HeaderIsPrintable | src/analysis/markdownParser.ts:27-30 | a line taken for a header has level 1..6 and a non-empty trimmed title on one line |
| Outline.ClassifyIff | src/analysis/markdownParser.ts:27-30 | a line is a header of a level and title if and only if, trimmed, it is that many hashes (1 to 6), at least one white-space character, and the title, which starts with none and holds no line terminator |
| Outline.EntriesAre | src/analysis/markdownParser.ts:21-78 | one entry per header line, in order, with the trimmed join of the lines up to the next header line or the end |
| Outline.ParseMeaning | src/analysis/markdownParser.ts:15-80 | of every text: the parse is well nested and its preorder has exactly those entries |
| OutlineParser.Section.constructor | src/analysis/markdownParser.ts:38-46 | a new section has its title and level and nothing else |
| OutlineParser.ParseMarkdownSections | src/analysis/markdownParser.ts:15-80 | the sections linked in place are fresh, unshared, one per header, and represent exactly the parse of the text |
| OutlineParser.AddSection | src/analysis/markdownParser.ts:48-61 | after popping, the new section is listed with its parent or as a root, every other child list is unchanged, and the stack is again the chain of ancestors |
| OutlineParser.Attach | src/analysis/markdownParser.ts:53-57 | appending to the nearest shallower section keeps every section listing exactly its children |
| OutlineParser.CloseSection | src/analysis/markdownParser.ts:32-35 | once its text is trimmed, a section carries its entry |
| OutlineParser.AppendLine | src/analysis/markdownParser.ts:65-72 | a line that is no header extends the text of the last section only |
| OutlineParser.EntriesWithText | src/analysis/markdownParser.ts:65-78 | the last section's content is the trimmed join of all lines since its header |
| OutlineParser.CollectTrims | src/analysis/markdownParser.ts:65-78 | dropping empty lines at the front while collecting does not change the trimmed content |
| OutlineParser.LinkedRepresents | src/analysis/markdownParser.ts:48-61 | sections linked by nearest-shallower parenthood represent the forest of the levels |
| OutlineLevels.NearestSkips | src/analysis/markdownParser.ts:49-51 | popping sections that are not above the new level never discards its parent |
| TaskGraph.TaskDurationWithDeps | src/analysis/wbsGenerator.ts:204-232 | on any graph: the most days over all simple paths of known unvisited tasks that end at the task; 0 if visited or unknown |
| TaskGraph.FindLongestPath | src/analysis/wbsGenerator.ts:276-309 | on any graph: a simple dependency path ending at the task with the most elements; empty if visited |
| TaskGraph.PathUnfolds | src/analysis/wbsGenerator.ts:288-308 | simple paths decompose at their last element, with that element visited |
| TaskGraph.ExtendBound | src/analysis/wbsGenerator.ts:218-231 | a bound over all dependencies bounds the task |
| Planner.CalculateDependencies | src/analysis/wbsGenerator.ts:142-174 | the map holds, per id, the previous Security task, the first CRITICAL Security task for Testing, then the explicit dependencies |
| Planner.DependsIff | src/analysis/wbsGenerator.ts:142-174 | with distinct ids a task waits for another if and only if it names it, or both are Security tasks without one in between, or it is a Testing task and the other the first CRITICAL Security task |
| Planner.TaskMapIsLast | src/analysis/wbsGenerator.ts:184-184 | a repeated id stands for the last task that has it |
| Planner.CeilIff | src/analysis/wbsGenerator.ts:198-198 | rounding up yields the least whole number that is not smaller |
| Planner.CalculatePhaseDuration | src/analysis/wbsGenerator.ts:179-199 | the ceiling of the most days over all paths to tasks of the phase, or of 0 |
| Planner.PhaseDurationInClosedForm | src/analysis/wbsGenerator.ts:142-199 | without explicit dependencies the longest total is max(all Security days, Security days through the first CRITICAL one plus the longest Testing task, longest other task), and nothing else is |
| Phases.PhaseDurationIsClosedForm | src/analysis/wbsGenerator.ts:179-199 | without explicit dependencies a phase's duration is that closed form rounded up to whole days, and nothing else is |
| Planner.PathsCostAtMost | src/analysis/wbsGenerator.ts:142-232 | no path to a task takes more than its closed-form cost |
| Planner.CostIsAttained | src/analysis/wbsGenerator.ts:142-232 | some path takes exactly that |
| Planner.InferredGraphIsAcyclic | src/analysis/wbsGenerator.ts:142-174 | without explicit dependencies no walk along inferred dependencies returns to its start |
| Phases.BuildPhases | src/analysis/wbsGenerator.ts:59-137 | three phases with the selected tasks in source order, longest-path durations, days that follow one another without a gap, each phase depending on the one before |
| Phases.PhasesConserveTasks | src/analysis/wbsGenerator.ts:61-84 | the phases and the dropped tasks are together exactly the input tasks |
| Phases.PhaseContents | src/analysis/wbsGenerator.ts:66-84 | the first phase and the dropped tasks are the CRITICAL ones; the second holds all HIGH and the first five MEDIUM ones; the third the other MEDIUM and all LOW ones |
| Phases.TasksInOrder | src/analysis/wbsGenerator.ts:66-84 | CRITICAL tasks come with Security first, HIGH ones with Testing first, then five MEDIUM ones, then the others, each group in input order |
| Phases.SecurityIsNeverDropped | src/analysis/wbsGenerator.ts:67-70 | every dropped task is CRITICAL and outside Security |
| Phases.NoTaskIsLostIff | src/analysis/wbsGenerator.ts:67-70 | nothing is lost if and only if at most two CRITICAL tasks are outside Security |
| Phases.ThirdCriticalTaskIsLost | src/analysis/wbsGenerator.ts:67-84 | the third of three CRITICAL tasks outside Security is in no phase |
| Phases.StableSortIsUnique | src/analysis/taskBuilder.ts:194-202 | an ordering is a stable priority sort if and only if it is the grouping by priority |
| Phases.RanksBeforeIff | src/analysis/taskBuilder.ts:194-202 | CRITICAL before HIGH before MEDIUM before LOW |
| Phases.PhasesAreSorted | src/analysis/wbsGenerator.ts:98-128 | sorting moves no task of any phase |
| Phases.SpansAddUp | src/analysis/wbsGenerator.ts:28-31 | the sum of the phase spans is the end of the last phase |
| Phases.IdentifyCriticalPath | src/analysis/wbsGenerator.ts:246-271 | the plan's critical path strings together, per phase, a path than which no path to a task of the phase is longer |
| Phases.GenerateWbs | src/analysis/wbsGenerator.ts:17-47 | phases tile [0, totalDuration] and carry the selected tasks, durations and critical path |
| Timeline.DfsLongestPath | src/analysis/timelineCalculator.ts:116-142 | a longest simple path over explicit dependencies; the caller's visited set gains exactly the task |
| Timeline.CriticalPathForPhase | src/analysis/timelineCalculator.ts:85-111 | the first longest among the paths to the tasks without dependencies, each avoiding those tasks before it; the first task if there are none; repeated ids included |
| Timeline.TimelinePathIsOneTask | src/analysis/timelineCalculator.ts:85-111 | with distinct ids that path is the first task without dependencies (or the first task) alone, and nothing else is |
| Timeline.CalculateTimelinePhaseDuration | src/analysis/timelineCalculator.ts:69-80 | the phase takes the days along that path; with distinct ids that task's days |
| Timeline.TimelineIsWithinPlan | src/analysis/timelineCalculator.ts:69-80 | with distinct ids the timeline's duration never exceeds the plan's |
| Timeline.TimelineEqualsPlanIff | src/analysis/timelineCalculator.ts:69-80 | without explicit dependencies both give a phase the same duration if and only if its first task lasts whole days, at least as many as all Security tasks, as the Security tasks through the first CRITICAL one plus any Testing task, and as any other task |
| Timeline.TimelineMissesSecurityOrder | src/analysis/timelineCalculator.ts:69-80 | for two Security tasks without explicit dependencies the timeline gives fewer days than the plan |
| Timeline.TimelinePathIsLongestIff | src/analysis/timelineCalculator.ts:88-110 | the one-task path is a longest one if and only if no task depends on another |
| Timeline.TimelineMissesDependency | src/analysis/timelineCalculator.ts:88-110 | of two tasks, the second depending on the first, the timeline reports one and the plan a longer path |
| RateLimit.TenantLimiter.constructor | src/middleware/tenantAuth.ts:433-438 | a limiter starts without entries |
| RateLimit.TenantLimiter.Handle | src/middleware/tenantAuth.ts:440-483 | one request sweeps expired entries, counts itself even if rejected, and is admitted within the cap; requests without a tenant pass |
| RateLimit.WebsocketLimiter.constructor | src/middleware/security.ts:142-142 | the limiter starts without entries |
| RateLimit.WebsocketLimiter.Handle | src/middleware/security.ts:144-168 | one connection opens or joins a one-minute window and is admitted while fewer than 10 were |
| RateLimit.LimiterFollowsHistory | src/middleware/tenantAuth.ts:450-483 | on every interleaved run each limiter admits exactly the requests within the cap of the key's own current window |
| RateLimit.WindowIsSuffix | src/middleware/security.ts:150-155 | the current window is the last requests of the key, all within one window length of the first of them, which came after the previous window's end |
| RateLimit.LimitersAgreeIffCapIsPositive | src/middleware/security.ts:144-168 | the two limiters make the same decision on every request of every run if and only if the cap is positive |
| RateLimit.LiveCountsCorrespond | src/middleware/tenantAuth.ts:450-468 | a live websocket count is the tenant count cut off at the cap; entries that only the websocket limiter keeps have expired |
| RateLimit.OtherKeysAreUnobservable | src/middleware/tenantAuth.ts:450-468 | a decision is the same when the key's requests are run alone |
| RateLimit.AdmissionsAreBounded | src/middleware/security.ts:150-167 | no closed interval of the window's length admits more than 2·cap − 1 requests of a key |
| RateLimit.BoundIsAttained | src/middleware/security.ts:150-167 | for every positive cap and window some run attains that bound |
| SecurityMonitor.SecurityMonitor.constructor | src/middleware/securityMonitor.ts:20-29 | the monitor starts empty |
| SecurityMonitor.SecurityMonitor.RecordEvent | src/middleware/securityMonitor.ts:31-41 | the event is logged and both counters change as the event says, under "unknown" if it has no address |
| SecurityMonitor.RecordMeaning | src/middleware/securityMonitor.ts:31-72 | entry by entry: an authentication event counts for the address it names, for "unknown" if it names none; a high-severity event counts for its user; nothing else changes but the log |
| SecurityMonitor.SecurityMonitor.EvaluateRisk | src/middleware/securityMonitor.ts:43-72 | authentication events count per address and block from the tenth on; high-severity events count per user |
| SecurityMonitor.SecurityMonitor.BlockIP | src/middleware/securityMonitor.ts:74-85 | the block time is now and the count stays |
| SecurityMonitor.SecurityMonitor.CleanupOldEntries | src/middleware/securityMonitor.ts:87-110 | exactly the expired entries go, and the log keeps its last 1000 events |
| SecurityMonitor.CleanupMeaning | src/middleware/securityMonitor.ts:87-110 | entry by entry: blocks of at most an hour, flags of at most half an hour and the last thousand events stay |
| SecurityMonitor.SecurityMonitor.IpBlocked | src/middleware/securityMonitor.ts:146-152 | the answer is that of the table at the given time |
| SecurityMonitor.SecurityMonitor.UserSuspicious | src/middleware/securityMonitor.ts:154-160 | the answer is that of the table at the given time |
| SecurityMonitor.SuspicionIsRecentHigh | src/middleware/securityMonitor.ts:154-160 | over all interleavings with cleanups, a user is suspicious if and only if the full history has a high-severity event of the user less than 30 minutes old |
| SecurityMonitor.BlockIffThreshold | src/middleware/securityMonitor.ts:43-54 | an entry's block time is set if and only if its count is at least 10, and is then that of the last authentication event |
| SecurityMonitor.BlockedIff | src/middleware/securityMonitor.ts:87-97 | an address is blocked if and only if ten authentication events that name it (or none, for "unknown") came without a cleanup in between, no later cleanup found the block expired, and its last one is under an hour old |
| SecurityMonitor.NeverTenNeverBlocked | src/middleware/securityMonitor.ts:87-97 | if no ten authentication events of an address come without a cleanup in between, it is never blocked, whatever the times |
| SecurityMonitor.PacedEventsNeverBlock | src/middleware/securityMonitor.ts:25-29 | with the cleanup once a minute, nine authentication events a minute leave the address unblocked, for however long they go on |
| SecurityMonitor.CleanupsDoNotAffectSuspicion | src/middleware/securityMonitor.ts:99-104 | removing all cleanups from a history changes no answer about a user |
| SecurityMonitor.CleanupDoesNotUnblock | src/middleware/securityMonitor.ts:92-97 | a cleanup changes no answer about an address before its next authentication event |
| SecurityMonitor.LogIsRecentPart | src/middleware/securityMonitor.ts:106-109 | the log is the latest part of all events, complete below 1000, and at most 1000 after a cleanup |
| Shuffle.SeededShuffle | scripts/golden-set/manual-verification.ts:41-54 | pass by pass, position i and the position floor(word / 0xffffffff * (i + 1)) exchange their contents, for the words of the seed; the result permutes the input if and only if the input is shorter than 2 or the seed residue is not the excluded one; otherwise it is the input plus one hole |
| Shuffle.FirstDrawDecides | scripts/golden-set/manual-verification.ts:49-52 | the first draw alone decides whether the shuffle permutes |
| Shuffle.LaterPassesPermute | scripts/golden-set/manual-verification.ts:49-52 | once the index above the current one is inside the array, passes permute for every draw |
| Shuffle.DrawnIndexRange | scripts/golden-set/manual-verification.ts:46-50 | a draw selects one of 0..i, except that the largest word selects i + 1 |
| Shuffle.DrawnIndexIff | scripts/golden-set/manual-verification.ts:46-50 | the drawn position is the one j with j * 0xffffffff <= word * (i + 1) < (j + 1) * 0xffffffff |
| Shuffle.EveryPositionIsDrawn | scripts/golden-set/manual-verification.ts:50-50 | every position up to i is drawn by some word |
| Shuffle.PassExchanges | scripts/golden-set/manual-verification.ts:49-52 | one pass exchanges position i with the drawn one and leaves all others |
| Shuffle.StepIsInvertible | scripts/golden-set/manual-verification.ts:43-45 | the generator step is a bijection on 32-bit words |
| Shuffle.FirstDrawIsMaximalIffBadSeed | scripts/golden-set/manual-verification.ts:43-47 | exactly one seed residue draws the largest word first |
| Shuffle.ProductIsExact | scripts/golden-set/manual-verification.ts:45-45 | the product before truncation is below 2^53 |
| BinTable.BinStore.constructor | src/database/migrations/001_initial_schema.sql:42-73 | a new table has no rows |
| BinTable.BinStore.UpsertRecord | scripts/etl/load.ts:129-211 | a new BIN gets a row; a known one keeps its columns except where the record offers a value, and takes source, stamp, raw data and time |
| BinTable.BinStore.LoadRecord | scripts/etl/load.ts:86-105 | one record is upserted, refused or failed, and counted and reported as such |
| BinTable.BinStore.LoadRecords | scripts/etl/load.ts:52-124 | the batched loop amounts to loading one record after another; without a run nothing is loaded, and the run ends as completed, failed or still running as its queries succeed |
| BinTable.NormalizeConfidenceScore | scripts/etl/load.ts:213-216 | the stored score is the nearest whole hundredth to the confidence clamped to [0,1], the larger of two equally near ones |
| BinTable.OfferedColumns | scripts/etl/load.ts:178-206 | which field goes into which column, and that the others stay empty |
| BinTable.ValidateIff | scripts/etl/load.ts:221-238 | a record is valid if and only if its BIN is six to eight decimal digits, its country code two capitals, and its length absent or 13 to 19 |
| BinTable.LoadCountsEveryRecord | scripts/etl/load.ts:57-105 | inserted + updated + failed is the number of records, with one error per failure |
| BinTable.LoadReports | scripts/etl/load.ts:86-105 | the failures are exactly the refused records and failed upserts, reported in order with their kind; the updates are the upserts of BINs in the table or upserted earlier; all else is inserted |
| BinTable.LoadedTimes | scripts/etl/load.ts:140-174 | a row has the time of its last upsert, and the import time of its first one or, if it was there before, its old one |
| BinTable.LoadedRow | scripts/etl/load.ts:129-211 | after a load each untouched row is as before; a touched one holds the old columns overlaid with everything offered for its BIN, and source, raw data and stamp of the last record |
| BinTable.LoadNeverErases | scripts/etl/load.ts:146-168 | a filled column stays filled, and unchanged unless a record offers a value |
| BinTable.LoadIsIdempotent | scripts/etl/load.ts:146-174 | loading the same records again changes nothing but timestamps, repeated BINs included |
| BinTable.SecondLoadInsertsNothing | scripts/etl/load.ts:93-95 | the second load inserts no row |
| BinTable.TableGrowsByInserted | scripts/etl/load.ts:93-95 | the table grows by exactly the number reported as inserted |
| BinTable.BinStore.Rollback | scripts/etl/rollback-version.ts:64-100 | exactly the rows of the version go, and a given run is marked; without a version nothing changes |
| BinTable.RollbackAfterLoad | scripts/etl/rollback-version.ts:85-86 | rolling a load back leaves the old rows that it did not touch and that did not carry its stamp before |
| BinTable.RollbackRestoresIff | scripts/etl/rollback-version.ts:85-86 | a rollback restores the table if and only if the load touched no known BIN and its stamp was fresh |
| BinTable.RollbackRestoresUnlessKnown | scripts/etl/rollback-version.ts:85-86 | if no query fails, a rollback restores the table if and only if no row carries the stamp yet and no record that is loaded has the BIN of a row |
| BinTable.RollbackLosesUpdatedRow | scripts/etl/rollback-version.ts:85-86 | loading a valid record over a row with its BIN and rolling that back leaves no row |
| VersionHash.ComputeVersionHash | scripts/etl/load.ts:32-47 | the stamp is the digest of the selected fields in BIN order |
| VersionHash.PreimageIs | scripts/etl/load.ts:36-44 | the digest is fed, for each record in BIN order, BIN, source, version and confidence with bars between them, and nothing else |
| VersionHash.SortByBinIsUnique | scripts/etl/load.ts:34-34 | the order is by BIN, and by input order among equal BINs |
| VersionHash.BelowIff | scripts/etl/load.ts:34-34 | a BIN goes before another if it has the smaller character where they first differ, or is a proper beginning |
| VersionHash.PreimageIgnoresOrder | scripts/etl/load.ts:32-47 | with distinct BINs the digest's input is the same for every order of the records |
| Sorting.StableSortIsUnique | scripts/etl/load.ts:34-34 | for every strict weak order, a list is a stable sort of another if and only if insertion sort yields it |
| VersionHash.PreimagesEqualIff | scripts/etl/load.ts:36-44 | without bars inside fields, two loads feed the digest the same characters if and only if they agree between any two bars, a confidence being glued to the next BIN |
| VersionHash.SharedStampMeansSameKeysIff | scripts/etl/load.ts:36-44 | two such loads that share a stamp, and whose different confidences print differently, have the same BINs, sources, versions and confidences if and only if their BINs have, in order, the same lengths |
| VersionHash.StampIdentifiesKeys | scripts/etl/load.ts:28-47 | if all BINs have one length and different confidences print differently, two loads share a stamp if and only if they agree in BINs, sources, versions and confidences |
| VersionHash.StampIdentifiesIff | scripts/etl/load.ts:28-47 | among valid normalized records the stamp identifies those four fields if and only if only one BIN length is in use, for every printing that tells whole percentages apart |
| VersionHash.ShowPrintsPercentages | scripts/etl/load.ts:43-43 | decimal printing tells whole percentages apart and puts no bar |
| VersionHash.DecimalStampIdentifiesIff | scripts/etl/load.ts:28-47 | with decimal printing the stamp identifies those four fields if and only if only one BIN length is in use |
| VersionHash.TwoLengthsCollide | scripts/etl/load.ts:36-44 | for any two of the lengths 6, 7 and 8 there are two loads of valid records with one stamp and different BINs |
| VersionHash.BarsCollide | scripts/etl/load.ts:36-44 | a bar moved from the version into the source, in any record, leaves the stamp unchanged |
| VersionHash.PreimageIgnoresOtherFields | scripts/etl/load.ts:36-44 | whatever the fields contain, loads that differ only in other fields have the same stamp; the converse is VersionHash.StampIdentifiesKeys |
| VersionHash.RollbackReachesEarlierLoadIff | scripts/etl/rollback-version.ts:85-86 | rolling the second of two loads back removes a row of the first if and only if they share their stamp or the second upserted that row too |
| Merge.MergeRecords | scripts/etl/merge.ts:73-118 | the nested loops yield one merge per BIN in order of first appearance, over its stably sorted records, the duplicate BINs, and no conflicts or errors |
| Merge.SortedIsUnique | scripts/etl/merge.ts:97-103 | records that tie in priority and confidence keep their input order, and no other order is a stable sort |
| Merge.MergedPerBin | scripts/etl/merge.ts:95-115 | one merged record per BIN; the duplicates are exactly the BINs with more than one record |
| Merge.BinsAreDistinct | scripts/etl/merge.ts:84-92 | the BINs are those that occur, each once |
| Merge.HeadIsPrimary | scripts/etl/merge.ts:97-103 | the first of the sorted records is the one that precedes all earlier ones and that no later one precedes |
| Merge.PrimaryIff | scripts/etl/merge.ts:97-103 | the primary record is the one of least priority number, then highest confidence, then earliest |
| Merge.PriorityIs | scripts/etl/merge.ts:58-68 | the priority number is the source's own, else 1 to 4 for the four named sources, else 5 |
| Merge.MergedGroup | scripts/etl/merge.ts:123-241 | source, version and luhn come from the primary record, the confidence is the maximum, and a field on which no two records disagree takes the primary's value |
| Merge.MergedParts | scripts/etl/merge.ts:133-241 | BIN, length, raw data and sources of the merged record come from the sorted records, one by one |
| Merge.DisagreementIsResolved | scripts/etl/merge.ts:190-206 | a disputed field takes the resolver's value, or the primary's if the resolver fails |
| Merge.ResolverIsGiven | scripts/etl/merge.ts:158-166 | the resolver is given source name, value and confidence of every record, in order |
| Merge.UndisputedFieldIsFirstAvailableIff | scripts/etl/merge.ts:207-210 | an undisputed field takes the first available value if and only if the primary record offers one or nobody does |
| Merge.FirstAvailableIsMissed | scripts/etl/merge.ts:207-210 | if the primary leaves a field empty and the second record has a value, there is no dispute and the field is null |
| Merge.LoneValueIsDisputedIff | scripts/etl/merge.ts:190-195 | a field on which all offers agree still goes to the resolver if and only if some record leaves it undefined |
| Merge.UndefinedIsDisputed | scripts/etl/merge.ts:190-195 | one value and one undefined field are a dispute |
| Merge.MergeConservesRecords | scripts/etl/merge.ts:134-155 | every input record appears once in the sources of the merged records |
| Merge.MergeConservesBatches | scripts/etl/merge.ts:84-155 | together, the sources of the merged records are one contribution per record of each batch: its source's name and version, its confidence, the six normalized fields and the other non-empty ones |
| Merge.AllAt | scripts/etl/merge.ts:86-92 | record j of batch i has its own place among all records |
| Merge.AllLength | scripts/etl/merge.ts:86-92 | there are as many records as the batches have together |
| Merge.BinsInOrder | scripts/etl/merge.ts:84-95 | BINs come in order of first appearance |
| Merge.TotalRecordsIff | scripts/etl/merge.ts:383-385 | the reported total is the number of input records if and only if no BIN has more than two |
| Merge.ThirdRecordIsNotCounted | scripts/etl/merge.ts:383-385 | three records of one BIN are reported as two |
| Merge.ConflictsReportedIff | scripts/etl/merge.ts:370-390 | the reported number of resolved conflicts is the number of disputed fields if and only if there are none |
| Merge.StatsAre | scripts/etl/merge.ts:370-390 | the statistics are the number of BINs, the number of BINs with several records, their sum, and 0 |
| Enrich.MergedRecord.constructor | scripts/etl/merge.ts:213-241 | a merged record has its values and no enrichment noted yet |
| Enrich.MergedRecord.Apply | scripts/etl/enrich-binlist.ts:182-240 | only missing fields are filled, and provenance is appended exactly when something changed |
| Enrich.FillIff | scripts/etl/enrich-binlist.ts:195-206 | field by field: what was present stays, what was missing takes the data's value, what neither has is null |
| Enrich.EnrichedIff | scripts/etl/enrich-binlist.ts:182-240 | without data nothing changes; with data the fields are so filled, and their values are noted if any changed |
| Enrich.EnrichRecord | scripts/etl/enrich-binlist.ts:149-244 | one turn of the loop: limit, eligibility, cache or lookup, counters |
| Enrich.EligibleIff | scripts/etl/enrich-binlist.ts:88-108 | a record is passed over if and only if lookups are for gaps and issuer, url, phone, city, country, scheme and brand are all present |
| Enrich.EnrichWithBinlist | scripts/etl/enrich-binlist.ts:134-247 | the loop over distinct objects amounts to the turns one after another |
| Enrich.PresentFieldsStay | scripts/etl/enrich-binlist.ts:195-206 | a present field is never changed |
| Enrich.CountsAddUp | scripts/etl/enrich-binlist.ts:143-156 | attempts stay within the limit, are cache hits or lookups, and enriched + errors is at most attempted |
| Enrich.EnrichedAreChanged | scripts/etl/enrich-binlist.ts:182-240 | the reported number of enriched records is the number of records that changed, hence at most the limit |
| Enrich.LookupsAreNew | scripts/etl/enrich-binlist.ts:157-180 | no BIN is looked up twice or although cached, and every lookup stays cached, failed ones included |
| Enrich.LookupsAreCached | scripts/etl/enrich-binlist.ts:157-180 | the cache holds the answer to every lookup, no data for unknown BINs and failures, and the errors are the failed lookups |
| Enrich.RunsShareLookups | scripts/etl/enrich-binlist.ts:143-168 | two runs that share the cache look nothing up twice |
| Enrich.RunIsOutcome | scripts/etl/enrich-binlist.ts:149-244 | every record up to the stopping point is what the final cache makes of it, the rest is untouched, and the run stops early only at the limit |
| Enrich.RunFills | scripts/etl/enrich-binlist.ts:149-244 | up to some point, before the end only at the limit, every record with a gap is filled from its answer; every other record is untouched; the attempts are the records so filled |
| Enrich.SecondRunDoesNothing | scripts/etl/enrich-binlist.ts:134-247 | after a run that covered all eligible records, a second run looks nothing up and changes nothing |
| Pipeline.MergedRecordsAre | scripts/etl/etl.ts:366-377 | the records that leave merging and validation have distinct BINs, and each is the merge of its BIN's sorted group |
| Pipeline.HandedOnIff | scripts/etl/merge.ts:339-365 | a merged record is handed on if and only if its BIN is six to eight decimal digits and it has a country code |
| Pipeline.LoadedBinsAreDistinct | scripts/etl/etl.ts:366-421 | whatever enrichment does, the records to load have distinct BINs |
| Pipeline.EnrichmentKeepsStamp | scripts/etl/load.ts:66-66 | loads of the same merged records, enriched differently or not at all, share their stamp |
| Pipeline.ArrivedRow | scripts/etl/load.ts:129-211 | among distinct BINs the row of a loaded record is the old row overlaid with exactly what the record offers |
| Pipeline.RecordIs | scripts/etl/load.ts:178-199 | BIN, length, luhn, source, version, raw data and confidence are loaded as merged |
| Pipeline.PrimaryValueArrives | scripts/etl/etl.ts:366-421 | a value that the primary record offers for an undisputed field is in the table once the BIN's record is loaded, whatever the lookups answer |
| Pipeline.LookedUpValueArrives | scripts/etl/etl.ts:384-421 | a value that the lookup brought for a field left empty by merging is in the table once the BIN's record is loaded |
| KeepBest.KeepBest | src/analysis/gapAnalyzer.ts:231-248 | one item per key in order of first appearance, the earliest of highest rank |
| KeepBest.SelectionIsUnique | src/analysis/gapAnalyzer.ts:231-248 | that description determines keys, order and items |
| Dedupe.DeduplicateGaps | src/analysis/gapAnalyzer.ts:231-248 | gaps: the earliest of highest priority per title |
| Dedupe.KeptGapIsMostUrgent | src/analysis/gapAnalyzer.ts:231-248 | a kept gap is at least as urgent as every gap of its title and more urgent than the earlier ones, CRITICAL being most urgent |
| Dedupe.ExtractPendingItems | src/analysis/dataExtractor.ts:105-139 | pending items of all reports: the earliest of highest priority per description |
| Dedupe.KeptItemIsMostUrgent | src/analysis/dataExtractor.ts:129-138 | a kept item is at least as urgent as every item of its description and more urgent than the earlier ones |
| Dedupe.DeduplicateRecords | scripts/etl/merge.ts:309-334 | records: the earliest of highest confidence per BIN and country, with the number dropped |
| Dedupe.SameRecordKeyIff | scripts/etl/merge.ts:316-316 | two records are repetitions if and only if they agree in BIN and country code, a missing code counting as "XX" |
| Dedupe.KeptItemsAreUnique | src/analysis/dataExtractor.ts:129-138 | any two results that keep the best items are equal |
| Completion.GroupMetricsByCategory | src/analysis/metricsExtractor.ts:88-117 | every metric lands in the group of the category that its name mentions first, in order, and the categories are a partition |
| Completion.CategoryIs | src/analysis/metricsExtractor.ts:95-110 | the category is that of the first row of keywords of which the name mentions one, in capitals or not; "General" if it mentions none |
| Completion.OverallIsPercentage | src/analysis/metricsExtractor.ts:63-83 | for non-negative metrics the overall completion lies in [0,100] |
| Completion.ShareIs | src/analysis/metricsExtractor.ts:75-80 | a metric's share is its current value as a percentage of its target, at most 100 |
| Completion.OverallIsMean | src/analysis/metricsExtractor.ts:63-83 | the overall completion is the mean share of the numeric metrics with a positive target, 0 if there are none |
| Completion.OverallIsWeightedMean | src/analysis/dataExtractor.ts:27-36 | the overall completion is the mean of the category completions weighted by the metrics that count |

## Left out

- Controllers, login, API keys, row-level security, the Redis limiter and command-line entry points: wrappers over libraries or I/O.
- IBAN, Luhn, card generation, bloom filter, uniqueness pool, cache tiers, and the inner workings of the conflict resolver: their source files are not part of this model.
- `extractTables`, `extractCheckboxes` and `extractMetrics` (src/analysis/markdownParser.ts): pattern matching on lines; a section's checkboxes, tables and metrics, which are filled in later, are not modelled.
- `mergeMetrics` (src/analysis/metricsExtractor.ts): the choice between two metrics of one name is not modelled.
- Wording: task titles, descriptions, subtasks, definitions of done, names and staffing of phases, effort and calendar strings, milestones, log lines and error texts.
- EditDistance.LevenshteinDistance: the matrix is allocated at its full size at once, where the source grows it row by row.
- OutlineParser.ParseMarkdownSections: the loop's steps for a header and for a text line are methods of their own.
- Planner.PhaseDurationInClosedForm: needs distinct ids, no explicit dependencies and non-negative estimates; without them `Planner.CalculatePhaseDuration` still holds.
- Shuffle.SeededShuffle: the quotient by 2^32 − 1 is exact, so rounding of doubles near an index boundary is not modelled.
- BinTable.BinStore.LoadRecords: the stamp is a parameter, computed by `VersionHash.ComputeVersionHash`.
- Merge.MergeRecords: nothing but the resolver fails, so no error is reported; import dates, the review queue and the per-source breakdown are not modelled.
- Pipeline.PrimaryValueArrives: extraction, normalization and the switches that skip enrichment or loading are not modelled.
- Enrich.EnrichWithBinlist: requires distinct record objects, as merging produces; writing the cache file, delays, timestamps and the source label of a provenance entry are not modelled.
- Dedupe.ExtractPendingItems: lower-casing and trimming of the key is a parameter.
- Completion.GroupMetricsByCategory: lower-casing is that of ASCII letters, which is all that the keywords consist of.
- SecurityMonitor.SecurityMonitor.RecordEvent: the log line and the performance metric of an event are not modelled.
