# Verified model of maven-mcp

maven-mcp is a server that answers questions about Maven projects: it indexes the JARs of a project, keeps those
indexes in memory and on disk, pages large results, runs Maven and reads its output, and analyses
the command logs of coding agents. This project models the parts whose correctness rests on
state, interleaving or arithmetic, and proves what the code and its comments promise of them.

`dafny verify dfyconfig.toml` checks everything. Each file is one component:

- **In-memory cache and build protocol.** `Ledger` (what is counted), `CacheModel` (the state and
  its operations as functions), `ProjectCache` (the class that updates it in place, proved against
  those functions), `CacheInvariant`, `CacheOperations`, `CachePublication`, `CacheRuns`
  (invariants and whole runs), `CacheLimits` (what eviction leaves), `CacheAnswers` (what is found
  afterwards), `BuildProtocol` (requests that share one build), `BuildRounds` (one build at a time),
  `BuildProgress` (nobody waits forever), `BuildTwice` (executions with two).
- **Result paging.** `Utf8`, `Json`, `Paging`, `ResponseSize`.
- **Searching and parsing.** `Wildcard`, `Hierarchy` and `HierarchySearch`, `Strings`,
  `DependencyLines` and `DependencyPaths`, `Output` (bounded readers).
- **Log analysis.** `Text`, `Calendar`, `Timestamps`, `EventLog`, `Deduplication`.
- **Concurrency protocols.** `Recovery` (processes sharing the disk cache), `HeavyWork` (the job
  pool), `StatusPublisher` (the coalesced status writer), the second module of `Output` (the shared
  budget).
- **Disk cache.** `ZipArchive` and `Preflight` (counting entries), `Sorting` and `FactStrings`,
  `ClassEntries`, `Persisted`, `CacheEntries`.

Conventions: `Arc` and `Weak` counts are sets of held identities (`Holders`), chosen freely by the
environment; clocks, file stamps, sizes in memory and random identities are parameters; a protocol
is a step relation over all interleavings, and its theorems hold of every run. Integers are
unbounded where the code adds 64-bit counters that cannot overflow in practice, and bounded where
a width decides a branch (`usize` cursors, 32-bit string ids and versions, 64-bit row sums).

Eight promises do not hold as their comments or names suggest. Each is stated with the exact
condition under which the code meets it:

- The glob matcher misses matches when the value itself holds a `*` before its last byte
  (`Wildcard.CorrectForEveryPatternIffNoInnerStar`).
- A dependency whose group, artifact, kind or classifier is a scope word, such as
  `org:test:jar:1:compile`, is reported malformed, and a version that is one is misread
  (`DependencyLines.CoordinateIsReadIff`).
- A dependency line with two annotations, such as
  `g:a:jar:1:compile (version managed from 2) (optional)`, is not read as printed, because only the
  last ` (` is looked at: it is malformed if the first note holds no colon and no parenthesis and the
  second no opening one; a note that ends in `)` loses it
  (`DependencyLines.NoteIsReadIff`, `DependencyLines.SecondNoteHidesCoordinate`). A whole report is
  read as printed exactly if none of this occurs in it (`DependencyPaths.PathsAreReconstructedIff`).
- `retained_bytes` counts less than is in memory once a publication has stored over an index that
  somebody holds. This happens: the first request of a generation publishes and then awaits
  `persist_build` (src/server.rs:1195-1208); cancelled there, it leaves its cell uninitialized, and
  a request waiting in `get_or_init` (src/server.rs:840-848) builds and publishes the same
  generation again (`BuildTwice.SecondPublicationLosesTheFirst`). Over all runs the sum is exact
  exactly as long as no such index of at least a byte is held (`CacheRuns.AccountingIsExactIff`,
  `CachePublication.PublishingIsExactIffUnheld`); staleness, stamps, live markers and the index
  bound do not depend on it.
- A second build can run beside the first, although src/project_cache.rs:184-186 and 195-196
  promise that a retry of the same generation waits. When a build has published an index that is not
  retained, the next lookup gets another cell and owner of the same generation; if the first request
  is then cancelled in `persist_build`, a request that waits in the first cell builds under the old
  owner (`BuildTwice.TwoBuildsSideBySide`). Lookups join whatever build is at work exactly as long as
  nobody begins in a cell whose build has ended in a generation that is still current
  (`BuildRounds.BuildsAreJoinedIff`).
- The directory of a JAR whose ZIP64 records stand beside an end record with the real numbers is
  sought behind its place, so that a small one is reported malformed and the build skips it; that of
  65535 entries without ZIP64 records is not found either. It is found exactly if the end record
  signals the ZIP64 records that are there (`ZipArchive.FileIsLocatedIff`,
  `ZipArchive.OneEntryWithRecordsIsMalformed`).
- A reused class directory that exceeds a limit can name another limit than a fresh read, although
  the comment at src/index/persisted.rs:143-144 says they fail the same way
  (`Preflight.DirectoryReuseFailsAlikeIff`, `Preflight.ReuseCanNameAnotherLimit`,
  `Persisted.BuildFromJars`).
- Events without a call id are merged only if all identity fields agree, says
  src/log_analysis.rs:185-186. They are told apart by a text that joins time, directory and command
  with NULs; where one of these holds a NUL itself, an event can be merged with another one that
  differs in where its texts end (`EventLog.OnlyItsCallIff`).

## Model

| member | source | states |
|---|---|---|
| CacheRuns.AccountingIsExactOverRuns | src/project_cache.rs:618-645 | in every run of cache calls and holder moves, `retained_bytes` plus the bytes of still held indexes that a publication stored over equals the bytes of everything in memory that the cache was ever given, each object once; cached indexes never exceed `max_indexes`, or one if that is zero |
| CacheRuns.AccountingIsExactIff | src/project_cache.rs:580-645 | in every run, `retained_bytes` is exactly the memory in use if and only if nobody still holds an index, of at least one byte, that an earlier publication stored over |
| CacheRuns.AcceptedFitsTheBudget | src/project_cache.rs:531-606 | in every run, a granted reservation and a retained index leave the memory in use within `max_bytes` plus the held bytes that publications stored over |
| CacheRuns.PublicationIsNeverStale | src/project_cache.rs:557-606 | in every run, an index is accepted only if nothing invalidated its project since a lookup handed out the generation, although evictions may have dropped and recreated the project's state in between |
| CacheRuns.StaleBuildsChangeNothing | src/project_cache.rs:446-465 | with an old generation, publish and reserve only prune, invalidate_if_generation and finish_full_rebuild change nothing, and finish_failed only enforces the limits: it may evict retained objects, but touches no generation and no live marker |
| CacheRuns.LiveMarkerIsShared | src/project_cache.rs:467-512 | while a build marker is live, every lookup of its project, whatever its fingerprint, answers with its very cell, owner and generation, never with an index |
| CacheRuns.StepSound | src/project_cache.rs:321-826 | every call, a publication over a retained index included, keeps the whole invariant, generations only move forward, and an invalidating call renews the generation of its project |
| CachePublication.PublishSound | src/project_cache.rs:557-606 | whatever the project retains, publishing keeps generation stamps, the index bound and exact accounts of everything but an index it stored over |
| CachePublication.RetainedFits | src/project_cache.rs:592-604 | `Retained` means the index is cached under its own generation and everything fits the budget |
| CachePublication.ReservationFits | src/project_cache.rs:531-555 | a grant fits together with all that stays in memory; a refusal would not fit although no index is left, and no runner of an idle project but the reserving one |
| CachePublication.RetainedBytesAreExact | src/project_cache.rs:618-634 | the sum the cache computes is the memory of the objects referenced, whoever references them |
| CachePublication.PublishingIsExactIffUnheld | src/project_cache.rs:580-606 | what publishing leaves, after enforcing the limits, has exact accounts of everything known before if and only if nobody holds the index it stored over |
| CachePublication.EnforceSpares | src/project_cache.rs:789-826 | eviction on behalf of a project keeps that project's state and its protected object |
| CacheLimits.EnforcingLeaves | src/project_cache.rs:789-826 | enforcing the limits leaves memory, index count and runner count within them, or nothing evictable that could bring them there, and only projects that retain or build something; it evicts the least recently used first, nothing in vain, and counts every evicted index |
| CacheLimits.WithinLimitsNothingGoes | src/project_cache.rs:789-826 | a cache within its limits keeps every index and every runner |
| CacheLimits.PublicationMeans | src/project_cache.rs:557-606 | an index is refused as stale exactly if its generation is old; it stays uncached only if it is larger than the budget, and then evicts nothing, or if the budget is exceeded with nothing left to evict |
| CacheLimits.ReservingEvicts | src/project_cache.rs:531-555 | reserving evicts the least recently used first and no more than the bytes need, and nothing for an old generation |
| CacheLimits.FailingEnforces | src/project_cache.rs:609-616 | a failed build leaves the cache within its limits in this sense, whatever its generation |
| CacheLimits.DiscardingEnforces | src/project_cache.rs:406-418 | so does discarding a project |
| CacheLimits.InstallingEnforces | src/project_cache.rs:366-404 | and installing a runner, whose project is protected |
| CacheAnswers.LookupIsCachedIff | src/project_cache.rs:467-512 | a lookup answers with an index exactly if the project retains one for the asked model; otherwise it counts a miss, drops what is retained, and answers with the project's own marker or with a cell nobody was handed before |
| CacheAnswers.AnswersAreCurrent | src/project_cache.rs:467-606 | in every run, an index that a lookup answers with was published as retained for the asked model in the answered generation, and nothing invalidated the project since |
| CacheAnswers.InstalledIsFound | src/project_cache.rs:366-404 | an installed runner is found afterwards; the project keeps its index and generation unless its model changed, and then has a new generation and no index |
| CacheAnswers.DiscardedIsGone | src/project_cache.rs:406-418 | nothing is left of a discarded project |
| CacheAnswers.MavenRunIsRemembered | src/project_cache.rs:420-430 | after a Maven run the project has a new generation, no index and a runner to validate again |
| CacheAnswers.RebuildIsSettledOnce | src/project_cache.rs:432-455 | a demanded full rebuild is settled exactly by the current generation, and survives invalidations |
| CacheAnswers.PruningIsExact | src/project_cache.rs:718-733 | pruning forgets exactly the released objects nobody holds, the dropped reservations and the markers whose cell is gone and whose owner is not locked |
| CacheInvariant.EnforceSound | src/project_cache.rs:789-826 | whatever it starts from, enforcing the limits ends with sound accounts and the index bound, and only drops what may be dropped |
| CacheInvariant.MakeRoomSound | src/project_cache.rs:540-549 | the loop that evicts for a reservation terminates and keeps sound accounts |
| Ledger.ExactCountsEachOnce | src/project_cache.rs:618-645 | cached and released-but-held slots partition the objects in memory, so their sum counts each once |
| Ledger.OverwriteIsExactIffUnheld | src/project_cache.rs:703-716 | forgetting a cached slot without listing it loses count of it exactly if somebody holds it |
| Ledger.PruneKeepsExact | src/project_cache.rs:718-733 | dropping dead weak references keeps the partition |
| ProjectCache.ProjectCache.LookUpIndex | src/project_cache.rs:467-512 | in place: a hit with a current fingerprint, else the live marker's cell and owner, else a new marker and generation |
| ProjectCache.ProjectCache.ReserveFor | src/project_cache.rs:531-555 | in place: refuses an old generation, evicts until the bytes fit, refuses with the totals, or lists a reservation; keeps accounts, stamps and index bound |
| ProjectCache.ProjectCache.PublishIndex | src/project_cache.rs:557-606 | in place: refuses an old generation, lists an oversized index, or stores, enforces and withdraws an index that does not fit; keeps stamps, index bound and accounts of all but an index stored over |
| ProjectCache.ProjectCache.BuildFailed | src/project_cache.rs:609-616 | in place: ends the build of a current generation only; keeps the invariant |
| ProjectCache.ProjectCache.EnforceLimits | src/project_cache.rs:789-826 | in place: index count, runner count, then memory, then idle states; ends bounded whatever the start |
| ProjectCache.ProjectCache.EvictLeastRecentlyUsedIndex | src/project_cache.rs:736-757 | in place: the least recently used unprotected index is released, or nothing changes |
| ProjectCache.ProjectCache.EvictLeastRecentlyUsedRunner | src/project_cache.rs:759-787 | in place: the least recently used unprotected runner is released, or nothing changes |
| ProjectCache.ProjectCache.EvictUntilFits | src/project_cache.rs:540-549 | in place: evicts in order until the extra bytes fit or nothing is left to evict |
| ProjectCache.ProjectCache.PruneNow | src/project_cache.rs:718-733 | in place: drops released objects nobody holds and dead markers |
| ProjectCache.ProjectCache.HitRecorded | src/project_cache.rs:514-521 | in place: a hit whose artifacts are current counts and makes its project the most recently used one; keeps the invariant |
| ProjectCache.ProjectCache.Install | src/project_cache.rs:366-404 | in place: a runner replaces the project's, which stays counted while held, and a changed fingerprint invalidates the project; keeps the invariant |
| ProjectCache.ProjectCache.Discard | src/project_cache.rs:406-418 | in place: forgets a project, its objects staying counted while held; keeps the invariant |
| ProjectCache.ProjectCache.MavenRan | src/project_cache.rs:420-430 | in place: a Maven run invalidates the project and makes its runner revalidate |
| ProjectCache.ProjectCache.InvalidateOnly | src/project_cache.rs:457-465 | in place: only the current generation is invalidated |
| BuildRounds.BuildsAreJoinedIff | src/project_cache.rs:184-200 | in every execution, up to every moment: every lookup joined the builds at work in its project's generation if and only if nobody began in a cell whose build had already published or failed in that generation |
| BuildRounds.OneBuildPerRound | src/server.rs:840-905 | in every such execution and every round, also after failures, evictions and unretained publications: parties to a generation whose cells have not ended share one cell and one owner, at most one of them initializes and at most one holds the lock, and a lookup that misses joins them |
| BuildRounds.OneBuildAtWork | src/project_cache.rs:184-187 | so a current generation has at most one build at work |
| BuildRounds.OneBuildAtWorkEver | src/project_cache.rs:184-187 | and if nobody begins in an ended cell at all, neither has a generation that has passed |
| BuildRounds.NextKeepsAgreement | src/server.rs:795-1211 | every step that begins in time keeps the agreement of a round, whatever publishes, fails, is cancelled or evicted |
| BuildProtocol.NextKeepsInv | src/server.rs:795-1211 | every step, cancellations with their jobs and status tasks and second builds included, keeps one lock holder per owner and one initializer per cell, and no marker ever names a cell whose build has ended |
| BuildTwice.WaiterPublishesAgain | src/server.rs:840-905 | whenever a published build is cancelled while it persists, a request that waited in its cell can build the same generation and store over what the first publication left |
| BuildTwice.SecondPublicationLosesTheFirst | src/server.rs:1195-1211 | an execution from the start that ends in such a second publication with less counted than is in memory |
| BuildTwice.TwoBuildsSideBySide | src/project_cache.rs:572-579 | an execution from the start that ends with two builds of one current generation at work, under different locks, neither published nor failed |
| BuildProgress.EverybodyCanFinish | src/server.rs:840-905 | from whatever state, all requests, jobs and status tasks can come to their end without a newcomer or a cancellation: nobody waits for one who waits for him |
| BuildProgress.AcceptedIff | src/server.rs:1195-1211 | a build that hands its index in has published, which ends the build, exactly if its generation is still current, and is refused otherwise |
| BuildProgress.SettledForGood | src/server.rs:840-848 | once the outcome of a cell is set it stays, and nobody ever runs a build of that cell again |
| Json.ResponseCostIsExact | src/server/response_limit.rs:277-285 | the per-character cost is its length escaped once plus escaped twice, for every character |
| Json.FragmentCostIsExact | src/server/response_limit.rs:224-236 | summed over a fragment it is exactly what the fragment adds to the response |
| Json.EscapeConcat | src/server/response_limit.rs:277-285 | escaping a text escapes its parts |
| Json.EscapedReadsBack | src/server/response_limit.rs:277-285 | a reader of JSON strings (section 7 of RFC 8259) gets back every text from its escaped form |
| Json.NumberOfDecimal | src/server/response_limit.rs:200-216 | decimal offsets are read back |
| Utf8.BoundariesArePrefixes | src/server/response_limit.rs:268-275 | byte offsets that pass the boundary test are exactly the lengths of the text's prefixes (RFC 3629, section 3) |
| Paging.CursorsAreCanonical | src/server/response_limit.rs:200-216 | exactly the encoding of an offset inside the text, at a character boundary, is accepted as a cursor, and means that offset |
| Paging.PageFitsItsBudget | src/server/response_limit.rs:224-246 | a page costs at most its skeleton plus its fragment, so the first candidate fits and the shrinking branch is dead |
| Paging.FitPage | src/server/response_limit.rs:218-257 | fails exactly when not one more character fits; otherwise the longest fragment within the budget, cut at a boundary, in a response within the limit |
| Paging.PreviousBoundary | src/server/response_limit.rs:268-275 | the nearest character boundary before a positive offset |
| Paging.AcceptedLimitsNeverTooSmall | src/server/response_limit.rs:297-328 | a limit accepted at startup rules out `LimitTooSmall` at every boundary of every text without raw control characters |
| Paging.AcceptedLimitsFitEveryMarker | src/server/response_limit.rs:297-328 | and every deferred-result marker fits it |
| Paging.AcceptsLimitIff | src/server/response_limit.rs:297-328 | a limit is accepted at startup exactly if every marker that can be issued and every page of one character, with whatever offsets, sizes and ids, fits into it |
| Paging.ReadPage | src/server.rs:2222-2250 | a page exactly for a missing or canonical cursor; an invalid cursor or a too small limit are told apart |
| Paging.ReadAll | src/server.rs:2227-2242 | following `next_cursor` from no cursor ends, every response is within the limit, every cut is a character boundary and the fragments concatenate to the stored text |
| Paging.ReadNext | src/server.rs:2227-2242 | each page continues where the last one stopped and gets further |
| ResponseSize.SerializedLenWithin | src/server/response_limit.rs:66-100 | however the text is cut into writes, and for every limit up to `usize::MAX`: its length exactly when within the limit; a serializer's own failure only before the limit is passed |
| ResponseSize.ByteCounter.Write | src/server/response_limit.rs:83-100 | counts with saturation and refuses once the limit is passed |
| Wildcard.MatchIsSound | src/project.rs:2705-2729 | every reported match is one, whatever bytes the value holds |
| Wildcard.MatchIsComplete | src/project.rs:2705-2729 | keeping only the latest star loses no match when the value has no `*` before its last byte |
| Wildcard.CorrectForEveryPatternIffNoInnerStar | src/project.rs:2705-2729 | a value is matched correctly by every pattern if and only if it has no `*` before its last byte |
| Wildcard.WildcardMatches | src/project.rs:2705-2729 | the loop terminates; it returns true only for values the pattern denotes, and for all of them under that condition |
| HierarchyIndex.BuildChildren | src/index.rs:3291-3320 | each group holds exactly the facts whose parent has that lowercased name, ordered by child, JAR path and relation, equal keys in JAR and class order |
| HierarchyIndex.InsertKeepsSorted | src/index.rs:3307-3319 | stable insertion keeps a group in that order |
| HierarchyIndex.PrecedesIff | src/index.rs:3307-3319 | that order is by child, then JAR path, `extends` before `implements`, then JAR and class order |
| HierarchySearch.SearchTypeHierarchy | src/index.rs:1501-1562 | terminates with exactly those matches of the whole search - without selector and limit - whose JAR is selected, in that order, cut at the limit; the whole search reports sound matches, each (child, parent, coordinate) once, nearest types first and the children of a type by name, every type below the root, and every fact below a reached type that does not close a cycle |
| HierarchySearch.AllMatchesAreFull | src/index.rs:1513-1555 | the search without selector and limit is such a whole search, transitive or for direct children only |
| HierarchySearch.SelectedIsExact | src/index.rs:1535-1546 | the selector keeps every match of a selected JAR as often as it was, and no other |
| HierarchySearch.SelectedKeepsOrder | src/index.rs:1535-1546 | and keeps them in order |
| HierarchySearch.FirstReportIsShortest | src/index.rs:1513-1555 | the first report of a type gives exactly its distance from the root |
| HierarchySearch.ChainsAreWalks | src/index.rs:1532-1536 | a reported chain is a walk, so no report comes before the shortest distance |
| HierarchySearch.WalksAreFound | src/index.rs:1513-1555 | once every found name is expanded, every walk of n facts leads to a name found within n |
| HierarchySearch.NamesAreExact | src/index.rs:1526-1530 | without names that differ only by case, reports name exactly the recorded types and never the root |
| DependencyPaths.ParseDependencyResolution | src/project.rs:2441-2549 | in place with the path stack and the builders: for each artifact its paths in line order, requested versions, selected version and reasons, and the malformed flag, as `DependencyPaths.ExplanationMeans` spells them out |
| DependencyPaths.ExplanationMeans | src/project.rs:2480-2549 | an explanation lists its paths in line order and exactly the versions asked for, names the version selected last, and gives each reason exactly when its rule applies: declared directly, managed, nearest of a conflict, only candidate |
| DependencyPaths.PathsAreReconstructedIff | src/project.rs:2447-2509 | for every sequence of trees printed in preorder with three-column cells, a log level on each line and any lines without dependencies between trees: every line gets exactly its root-to-node path, module, status, requested version and note, in order, and none is malformed, if and only if every printed dependency is readable |
| DependencyPaths.ForestIsReadIff | src/project.rs:2464-2503 | the lines below a parent add exactly their entries, whatever is left on the stack beyond the parent, if all are readable; otherwise a line is malformed or adds another entry, and nothing later repairs that |
| DependencyPaths.ModuleSelectorIsFirst | src/project.rs:2567-2573 | the selector of the first module with the artifact id, and `.` exactly when there is none |
| DependencyPaths.BannerOpensModule | src/project.rs:2561-2566 | a plugin banner names the module of the lines behind it and empties the path stack |
| DependencyLines.CoordinateIsReadIff | src/project.rs:2634-2665 | a printed coordinate is read as it is if and only if no part before the scope is itself a scope word |
| DependencyLines.ScopeWordHidesCoordinate | src/project.rs:2634-2645 | a well-formed coordinate whose artifact is called `test` is not read |
| DependencyLines.LineIsReadIff | src/project.rs:2586-2632 | a printed line shows its marker, and its depth, identity, coordinate, version, note, and the status and requested version that its note spells out, are read as printed if and only if no part before the scope is a scope word and its note survives |
| DependencyLines.StatusIsPrinted | src/project.rs:2594-2605 | a line is excluded, a lost conflict or a duplicate exactly as its note says, in whatever case, and otherwise - without a note, or with one about something else - selected |
| DependencyLines.RequestIsPrinted | src/project.rs:2684-2694 | the requested version is what stands behind the first `version managed from`, up to a blank, comma or semicolon, and the printed version without one |
| DependencyLines.NoteIsReadIff | src/project.rs:2616-2632 | a note is read as it is if and only if it is trimmed and, when it is an annotation, holds no ` (` and does not end in `)` |
| DependencyLines.SecondNoteHidesCoordinate | src/project.rs:2626-2632 | every line with two annotations behind a scope - the first without colons and parentheses, the second without an opening one, such as `(version managed from 2) (optional)` - is malformed |
| DependencyLines.ManagedVersionIsRead | src/project.rs:2606-2607 | the requested version of a managed dependency is the one its note names |
| DependencyLines.ConflictIsRead | src/project.rs:2594-2605 | a dependency that lost a conflict is recognized, whatever version won it |
| DependencyLines.MarkerIsFound | src/project.rs:2455 | the first marker in a printed line is its own, for both kinds of marker |
| DependencyLines.RootIsRead | src/project.rs:2575-2584 | a root line is read as module and coordinate, and has no marker |
| DependencyLines.LoggedIsRead | src/project.rs:2551-2559 | stripping the log level gives back the message with its indentation |
| Strings.SplitOfJoin | src/project.rs:2589-2592 | coordinate parts survive joining and splitting |
| BoundedReading.ReadBounded | src/project.rs:1841-1886 | for every way a stream is cut into reads: the first and the last min(limit, n) bytes, truncated exactly when n exceeds the limit |
| BoundedReading.BytesOfStream | src/project.rs:1841-1849 | the kept bytes are a prefix or a suffix of the stream, all of it when it fits |
| OutputBudget.BudgetIsUsedExactly | src/benchmark.rs:734-777 | in every interleaving of two readers with spurious compare-exchange failures, both stores are prefixes of their streams within the budget; at the end they hold exactly the smaller of bytes and budget, truncated exactly when a byte was dropped |
| Calendar.FormulaCountsDays | src/log_analysis/time.rs:41-46 | the date formula counts days as the Gregorian calendar does, for every year from 0 on |
| Calendar.CivilOfDays | src/log_analysis/time.rs:64-76 | the days formula gives back every valid date, of any year |
| Calendar.DaysOfCivil | src/log_analysis/time.rs:64-76 | and every day number comes from exactly the valid date it yields |
| Calendar.EarlierCountsLess | src/log_analysis/time.rs:41-46 | earlier dates have smaller day numbers |
| Timestamps.FormatsExactlyFourDigitYears | src/log_analysis/time.rs:64-80 | exactly the instants of years 0 to 9999 have a text |
| Timestamps.WrittenTimestampsMeanTheirInstant | src/log_analysis/time.rs:15-61 | a written timestamp is accepted exactly when it is well-formed, in range and its instant has a text, and it means that instant |
| Timestamps.MillisecondsAreCutOff | src/log_analysis/time.rs:58-59 | any number of fraction digits is cut off to milliseconds |
| Timestamps.FormatThenParse | src/log_analysis/time.rs:15-87 | formatting and parsing gives back the same millisecond and text |
| Timestamps.NormalizeIsIdempotent | src/log_analysis/time.rs:15-61 | normalizing twice is normalizing once |
| Timestamps.TextOrderIsTimeOrder | src/log_analysis/time.rs:79-87 | text order of formatted instants is time order (RFC 3339, section 5.1) |
| Timestamps.NormalizedOrderIsTimeOrder | src/log_analysis/time.rs:15-87 | so normalized texts compare like their instants |
| Deduplication.DeduplicateEventsWithin | src/log_analysis.rs:216-284 | one survivor per identity, the best of its group, and every event without identity, in report order; if all events were charged, a merge never fails, used bytes change by survivors minus input, and a failure is an identity key that does not fit, with all keys released |
| Deduplication.SurvivorsIgnoreOrder | src/log_analysis.rs:250-271 | inputs with the same keyed events leave the same command and the same earliest time for every identity |
| EventLog.SameKeyIff | src/log_analysis.rs:216-249 | two events are merged exactly if they agree in IDE, agent, project, tool and session - the source standing in for a missing session - and in their call id or, both without one, in time, directory and command, provided that these hold no NUL |
| EventLog.OnlyItsCallIff | src/log_analysis.rs:225-237 | an event is never taken for another call if and only if it has a call id or its time, directory and command hold no NUL |
| EventLog.HasKeyIff | src/log_analysis.rs:225-239 | an event is never merged exactly if it has neither call id nor time |
| Deduplication.CallIsRepresented | src/log_analysis.rs:216-284 | every call keeps a survivor that is an update of it with no shorter command |
| Deduplication.CallsStayApart | src/log_analysis.rs:240-249 | updates of two calls, those of two known sessions in particular, leave two survivors |
| Deduplication.UpdatesAreMerged | src/log_analysis.rs:250-271 | no two survivors are updates of one call |
| Deduplication.UnidentifiedAreKept | src/log_analysis.rs:186-187 | repetitions of an event without call id and time are all kept |
| Deduplication.ChargeMerged | src/log_analysis.rs:251-271 | recharging a merged survivor stays within what the two events gave back |
| EventLog.MergeShrinks | src/log_analysis.rs:256-264 | a merged survivor retains no more than the two events |
| EventLog.MergeIsBest | src/log_analysis.rs:250-264 | merging keeps the longest command and the earliest known time of the whole group |
| EventLog.SortedEvents | src/log_analysis.rs:286-311 | sorting puts the events in report order and keeps every event as often as it was |
| EventLog.ReportOrderIff | src/log_analysis.rs:286-311 | the report order is by time, IDE, agent, project, session, tool, directory, command and call id, missing texts first |
| EventLog.StateBudget.Charge | src/log_analysis/limits.rs:72-80 | charges exactly when the total stays within the limit |
| Deduplication.FilterEventsWithin | src/log_analysis.rs:139-148 | gives back exactly the bytes of the dropped events |
| Deduplication.FilterKeepsTheInterval | src/log_analysis.rs:155-183 | exactly the events are kept whose instant is inside the inclusive interval, whose IDE, agent, project and session are the asked ones but for case, and whose category is the asked one |
| Deduplication.UntimedIsOutside | src/log_analysis.rs:159-166 | an event of unknown time is outside of every bounded interval |
| Deduplication.FilteredArePassed | src/log_analysis.rs:155-177 | filtering keeps every occurrence of a passing event and none of another |
| Text.LowerAgreesIff | src/log_analysis.rs:179-183 | lowercased texts agree exactly if the texts agree but for the case of ASCII letters |
| Recovery.ResetsAreOwnDiagnoses | src/index_cache.rs:268-312 | in every interleaving of processes, each reset deletes the incarnation its process diagnosed, and no incarnation is deleted twice |
| Recovery.DiagnosisIsResetOnce | src/index_cache.rs:216-278 | when a process reopens after recovery, what it had diagnosed in its epoch was reset exactly once, by whomever |
| Recovery.OpeningDiagnosesItsEpoch | src/index_cache.rs:142-233 | damage found while opening is that of the database born in the observed epoch, still present |
| Recovery.OnlyDamagedAreDeleted | src/index_cache.rs:216-312 | whatever was deleted was damaged |
| Recovery.RecoveryEnds | src/index_cache.rs:268-312 | when nobody holds the lock, a process whose diagnosis is of the present epoch can rebuild the database in the next epoch, one that comes late reopens what is there without a reset, and either leaves with that database unless it is damaged too |
| Recovery.OpeningEnds | src/index_cache.rs:142-233 | opening can lead to the database at the path, created if there was none, and into recovery exactly if it is damaged |
| Recovery.ExecutionKeepsInv | src/index_cache.rs:142-330 | locks, epochs, databases and diagnoses stay consistent in every reachable state, also when opening, locking or reopening fails for other reasons than damage |
| CacheEntries.EntryTable.EvictToBudget | src/index_cache.rs:442-465 | deletes the least recently used entries, by row, and no more than the budget needs |
| HeavyWork.SlotsAreNeverLost | src/blocking.rs:135-186 | in every interleaving, free permits plus holders equal capacity, executing closures never exceed `running` nor admitted jobs the capacity, and an abandoned closure keeps both slots until it returns |
| HeavyWork.OverloadedExactlyWhenFull | src/blocking.rs:153-160 | a call is refused exactly when every admission slot is taken, and then changes nothing else |
| HeavyWork.NothingAfterShutdown | src/blocking.rs:147-186 | in every run, whatever executes or was delivered at any moment after a shutdown did or was so at the shutdown |
| HeavyWork.DeliveredOnlyUncancelled | src/blocking.rs:176-186 | in every run, a delivered value is one that the job's closure had returned, and it went to a request that still waited and whose token was not cancelled at that moment |
| HeavyWork.AnsweredIff | src/blocking.rs:153-186 | in every run, a request that sees its closure's result gets the returned value exactly if the closure returned it without panic and no shutdown came before, a failure exactly if the closure panicked, and is cancelled otherwise |
| HeavyWork.UnansweredIff | src/blocking.rs:153-169 | any other end is a refusal for want of a slot, or the cancellation of a queued request by a shutdown |
| HeavyWork.StartsIff | src/blocking.rs:170-175 | a scheduled closure does its work exactly if neither the server was shut down nor its request dropped before |
| HeavyWork.GrantedInTime | src/blocking.rs:161-169 | a running slot is granted only while one is free, and never to a dropped request or after a shutdown |
| HeavyWork.NobodyIsStuck | src/blocking.rs:153-186 | while any job is left some job can move on, without new calls, dropped requests or a shutdown |
| HeavyWork.JobsMoveOn | src/blocking.rs:153-186 | and such a step brings one job closer to its end and leaves the others where they are |
| HeavyWork.DroppedRequestsGetNothing | src/blocking.rs:153-186 | in every run, a request whose future was dropped has no outcome at any later moment |
| ThreadScope.Thread.Perform | src/blocking.rs:37-69 | nested scopes see the innermost token and restore the outer one, also when work panics |
| StatusPublisher.HitsAreShownInTime | src/runtime_stats.rs:214-274 | in every timed run, an unwritten hit has a scheduled flush and each hit is written within the publication delay while the publisher is open |
| StatusPublisher.FlushesAreSpaced | src/runtime_stats.rs:236-268 | two hit flushes that write are at least the delay apart |
| StatusPublisher.HitIsShownAtOnceIff | src/runtime_stats.rs:232-251 | a hit is written at once exactly if no flush is scheduled and the last write is at least the delay ago; otherwise a flush is due no later than the delay after the last write |
| StatusPublisher.WritesShowEverything | src/runtime_stats.rs:214-268 | an open publisher writes at every structural change and at every flush that finds unwritten hits, and then all hits are shown |
| StatusPublisher.NothingAfterClose | src/runtime_stats.rs:270-298 | nothing is written after close |
| StatusPublisher.RuntimeStatusPublisher.RecordHit | src/runtime_stats.rs:232-251 | in place: marks the state dirty and asks for a flush at most once |
| StatusPublisher.RuntimeStatusPublisher.Flush | src/runtime_stats.rs:253-268 | in place: writes exactly an open, dirty state and ends the pending flush |
| StatusPublisher.RuntimeStatusPublisher.Update | src/runtime_stats.rs:214-230 | in place: writes at once unless closed |
| StatusPublisher.RuntimeStatusPublisher.Close | src/runtime_stats.rs:270-274 | in place: removes the file for good |
| FactStrings.FactStringPool.Intern | src/index.rs:550-564 | an id names its string, known strings keep theirs, a new one is stored once |
| FactStrings.CollectFacts | src/index.rs:2760-2857 | the stored ids are all valid and name exactly what the kept classes said, parents and references of a class in increasing order and once each, every string stored once |
| FactStrings.KeptExactly | src/index.rs:2760-2857 | exactly the classes are kept that are no module descriptor and have a source file, a parent or a reference, as often as they were parsed |
| Sorting.SortUniqueSorts | src/index.rs:2815-2824 | sorting and deduplicating keeps exactly the items, each once, in the order of their keys |
| ClassEntries.EffectiveClassEntries | src/index.rs:2869-2906 | exactly the class paths with a candidate, each with the first entry of its highest usable version |
| ClassEntries.EffectiveIsUnique | src/index.rs:2869-2906 | that rule determines the selection, so it can be derived again |
| ClassEntries.CandidateIff | src/index.rs:2870-2894 | a classfile under `META-INF/versions/` is a candidate exactly under the canonical decimal of a release from 9 to 2^32 - 1, if the archive declares several releases; any other classfile is one of version 0 |
| ClassEntries.ClassNameIff | src/index.rs:3544-3551 | a class path spells its class name with slashes for dots, and descriptors of modules and packages have none |
| ZipArchive.PreflightArchive | src/index.rs:3194-3286 | in place, from the bytes of the file: end record, ZIP64 record, multi-disk and size checks, then header by header, with the budget spent as far as counting got |
| ZipArchive.FileIsLocatedIff | src/index.rs:3197-3253 | the directory of an archive as it is written, with a comment of any length that does not itself pass for an end record, is found where it is with its count and size if and only if ZIP64 records are there exactly when a number of the end record is all ones |
| ZipArchive.OverlookedRecordsShiftTheDirectory | src/index.rs:3213-3246 | beside real numbers the directory is sought as far behind its place as the ZIP64 records are long |
| ZipArchive.OneEntryWithRecordsIsMalformed | src/index.rs:3213-3265 | a legal archive of one entry, with ZIP64 records beside real numbers, that is reported malformed |
| ZipArchive.WrittenArchiveFailsIff | src/index.rs:3190-3286 | an archive found like that, with bearable names and directory size, fails exactly for the limit that its entries and names exceed and is otherwise charged with them; any other such archive fails |
| Preflight.ArchiveFailsIff | src/index.rs:3237-3286 | whatever count and size are declared: an archive whose headers are as declared fails exactly for the limit it exceeds and is otherwise charged in full; any other archive fails |
| Preflight.PreflightDirectory | src/index.rs:3470-3491 | in place, entry by entry |
| Preflight.DirectoryFailsIff | src/index.rs:3470-3491 | a readable directory fails at the first file beyond a limit, and otherwise is charged in full |
| Preflight.ArchiveBudget.Reserve | src/index.rs:3177-3187 | takes one entry, then its name bytes, and names the one that ran out |
| Preflight.Charge | src/index/persisted.rs:145-159 | in place: the stored charge, counts before names |
| Preflight.DirectoryReuseFailsIff | src/index/persisted.rs:143-159 | reusing a directory's record fails exactly when counting its files would |
| Preflight.DirectoryReuseFailsAlikeIff | src/index/persisted.rs:143-144 | it reports the same limit if and only if no other limit is crossed before that count |
| Preflight.ReuseCanNameAnotherLimit | src/index/persisted.rs:143-144 | a directory for which the two report different limits |
| Persisted.Restore | src/index/persisted.rs:245-272 | a readable, valid record of the same context and stamps is charged like its preflight and gives its record back; anything else is a miss that leaves the budget alone |
| Persisted.LoadRecord | src/index.rs:2294-2339 | a record read from an archive has the effective entries, class names, ids and strings that its contents determine |
| Persisted.ReadIsDerived | src/index/persisted.rs:245-376 | a record read from an archive has valid ids and nothing that cannot be derived again |
| Persisted.RestoredIsTheRecord | src/index/persisted.rs:193-376 | what was stored of a record read from an archive is usable and gives back that very record |
| Persisted.IntoRecord | src/index/persisted.rs:321-376 | classes and effective entries derived again from the stored entries |
| Persisted.ReuseChargesAlike | src/index/persisted.rs:143-159 | reuse fails exactly when counting fails, takes the same from the budget otherwise, and names the same limit for every archive, and for a directory exactly if no other limit is crossed before the count it reports |
| Persisted.ChargeIsTaken | src/index/persisted.rs:136-141 | the difference of budgets a preflight leaves is what its content takes |
| Persisted.BuildFromJars | src/index.rs:696-775 | building with stored records gives the same index and remaining budget as building without, is cancelled at the same checkpoint, or fails at the same artifact - for the same limit if and only if that artifact was counted, or reusing it names the limit that counting names; what may be stored are exactly the records of the artifacts counted and read in this pass none of whose files changed within the last two seconds |
| Persisted.BuiltIff | src/index.rs:696-775 | an index is built exactly if no checkpoint sees the job cancelled and no artifact exceeds a limit; it holds, by path, the record of every artifact that can be counted and read, as often as artifacts give it |
| Persisted.StoredStaysFaithful | src/index/persisted.rs:245-272 | a stored record is used later, by whatever build under whatever limits, only for what it was made from, if equal place, stamps and limits mean equal content |
| Persisted.EarlierBuildsMakeAStore | src/index/persisted.rs:34-42 | so any collection of records that earlier builds stored is one a build can rely on |
| Persisted.StoredIsReused | src/index/persisted.rs:245-272 | and is reused as long as stamps and limits stay |
| Persisted.SettledStampsChangeIff | src/index/persisted.rs:28-59 | a write after a settled moment always changes the stamp if and only if the file system counts time in units of two seconds or less |
| Persisted.RewrittenIsNotReused | src/index/persisted.rs:88-96 | so a file written after its record was stored makes the record useless |
| Persisted.CancelledBuildsNothing | src/index.rs:721-775 | a build that is cancelled at any of its checkpoints never gives an index, whatever the reads after the cancellation gave |
| Persisted.RecordsAreOrdered | src/index.rs:772 | the records of an index are in the order of their paths, each as often as it was read |

## Left out

- Requests, tool routing, schemas and logging (src/server.rs, src/main.rs): plumbing around the modelled steps; the response envelope of a page is a constant plus the page text and its escaped copy.
- Maven and jenv processes, signals, file walking, decompression, classfile, SQLite, zlib, regex and XML parsing: other programs and libraries; what they yield is a parameter.
- Payload encoding: storing a record and reading it back is the identity, an unreadable payload is a miss.
- Memory estimates (`estimated_bytes`, `runner_bytes`) and file stamps: opaque numbers.
- Text outside ASCII in type names, dependency output and event fields: case folding, trimming and byte lengths are those of ASCII there; paging and timestamps treat all characters.
- I/O errors other than the ones that decide a branch; the status writer's writes succeed and due flushes happen.
- src/server/result_store.rs, src/server/tool_call.rs and src/log_analysis/sources.rs are not part of this model; a result id is at most as long as the longest one and needs no escaping.
- Recovery.ResetsAreOwnDiagnoses: recovery sections run to completion and the epoch is written whenever a database was deleted; a crash in between, deleting the directory by hand and epoch wrap-around are outside.
- BuildRounds.OneBuildPerRound: the lock serves those who wait for it in any order, where the code's lock is fair.
- Wildcard.MatchIsComplete: only for values without a `*` before their last byte, where it is false otherwise.
- Paging.ReadAll: for stored texts without raw control characters, which compact JSON never holds; whether the page is the longest possible one is judged against the code's conservative skeleton.
- HierarchySearch.SearchTypeHierarchy: the query is normalized by the caller (src/index.rs:3553-3558); which JARs a selector names is a set.
- DependencyPaths.PathsAreReconstructedIff: every line carries a log level, as Maven prints it (without one, trimming removes leading blank cells), and no coordinate or note holds `@` or a tree marker of its own.
- Tree depth from `parse_dependency_tree` (src/project.rs:2731-2780): it trims leading blank cells, so the paths are not its claim.
- Deduplication.SurvivorsIgnoreOrder: only the command and the time of a survivor; which working directory survives a tie depends on the input order.
- EventLog.MergeShrinks: the parsed Maven command of an event is its size.
- FactStrings.CollectFacts: requires fewer than 2^32 - 1 names in the parsed classes, repetitions included; the code panics beyond that many different ones.
- ZipArchive.PreflightArchive: reading the file gives the bytes it has at that moment; a file of 2^63 bytes or more is outside.
- ZipArchive.FileIsLocatedIff: comments that themselves pass for an end record, which no reader of the format can tell apart.
- Persisted.BuildFromJars: relies on equal stamps meaning unchanged content, as the code does, and takes the artifacts in the order of their paths; records with equal relative paths keep that order here, which the code's unstable sort leaves open.
- OutputBudget.BudgetIsUsedExactly: readers whose pipes fail.
- `disambiguate_labels` of src/bin/maven-agent-log.rs, redaction, shell classification, coverage reports, benchmark summaries, POM descriptors and the plain searches: pattern lists or one-branch facts that would only add easy members.
