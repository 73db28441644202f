# Verified model of browzer-cli

This project models the algorithms and small state machines inside the browzer command line
client and proves what they promise. Loops and objects of the Go source are Dafny methods and
classes, each proved against a specification function; the promises themselves are lemmas about
those functions, for all inputs, all server answers and all runs.

| file | what it models |
|---|---|
| `EditDistance.dfy` | the two-row Levenshtein loop and the "did you mean" ranking |
| `DocPlan.dfy` | merging local and indexed documents, selection, the delta plan, the cache-only diff |
| `Upload.dfy` | the batch uploader, for arbitrary server replies |
| `SyncRuns.dfy`, `SyncFlow.dfy` | one `browzer sync` of documents against a server, and whole runs of edits and syncs |
| `DocSpec.dfy` | the `--add`, `--remove` and `--replace` specs |
| `GlobRegexp.dfy` | the glob to regexp compiler, read back by a parser for the regexps it emits |
| `Telemetry.dfy` | the event table, its aggregation, and the read, send, mark protocol interleaved with recorders |
| `ManifestCache.dfy` | the daemon's manifest cache as an interleaving of readers, refetches and foreground syncs |
| `Reconcile.dfy` | push, pull and add passes of the workspace manifest |
| `StripQuoted.dfy` | the shell skeleton scanner |
| `Aggregate.dfy`, `Decimal.dfy` | consolidation of code-review findings and their identifiers |
| `Versions.dfy` | version comparison for the upgrade check, and when it orders three versions |
| `Precedence.dfy` | pre-release precedence of Semantic Versioning, and when the code agrees with it |
| `Sensitive.dfy` | the blocklist of sensitive files: path patterns and delimited keywords |
| `Walker.dfy` | the lazy ignore matcher on its backing array, and the two directory walkers |
| `RepoWalk.dfy` | the parallel code walk: goroutines with their own matchers, in any interleaving |
| `DevicePolling.dfy` | polling for the device-flow token |
| `Ordering.dfy`, `Text.dfy`, `Options.dfy` | Go string order, sorting and its uniqueness, string functions, optional values |

`dafny verify dfyconfig.toml` checks everything.

Modelling decisions. Strings are sequences of code points (bytes for the shell scanner, where
every character that matters is ASCII). A Go map that is iterated becomes a loop that takes keys
in any order, so nothing proved depends on the order. Clocks, the network, the disk and the
database's refusals are parameters: functions of the attempt, chunk, path or call. A server
indexes documents by path, and a content hash stands for the content. Every step of an
interleaving is one critical section, one file-system operation or, in the parallel walk, the
visit of one directory entry.

Where the code and its own comments differ, the model follows the code:

- `DocDeltaPlan` is said to cover the whole input; it misses rows that are neither indexed nor
  selected with a local file (`DocPlan.PlanCoversIff`).
- The document cache is written from the acknowledgement, job by position, before the outcome of
  a job is known. `SyncFlow.SyncSoundIff` says exactly when that is harmless; otherwise a
  document can stay outdated on the server for good (`SyncFlow.StaleForever`).
- Documents skipped as duplicates are said to be on the server; one whose content is there under
  another path only is not, and the exit code is zero all the same
  (`SyncFlow.SoundExitOkConvergesIff`, `SyncFlow.DuplicateExitsZero`).
- The regexp for `**` stops at newlines (`GlobRegexp.NewlinesMatterIff`).
- The ledger counts rows twice after a failed marking (`Telemetry.LedgerBalancesIff`).
- A foreground sync does not take the daemon's lock, so the timestamp comparison can be overtaken
  (`ManifestCache.DiskForwardIff`), and a read that was in flight across an invalidation
  reinstalls what it had read (`ManifestCache.FreshAfterInvalidateIff`). The two together can
  take a cache entry back (`ManifestCache.EntryGoesBackIff`).
- The push pass is meant to be visible in the pull pass, but the listing is older than the push
  (`Reconcile.OldListingUndoesPush`, `Reconcile.OneRoundReachesIntentIff`,
  `Reconcile.SecondRoundReachesIntent`).
- An open heredoc is said to keep its header in the skeleton; `skipHeredoc` reports success for it,
  so the header is dropped as well (`StripQuoted.OpenHeredocSwallowsAll`). Quotes of a
  heredoc inside double quotes are said not to leak; its end is computed and ignored, so they
  do unless they are escaped (`StripQuoted.QuotedHeredocIff`, `StripQuoted.QuotedHeredocLeaks`).
- A sensitive keyword is said to need a non-letter around every occurrence; one such occurrence
  is enough (`Sensitive.MatchSensitiveName`, `Sensitive.SecretSecretary`).
- Two members with the same identifier prefix hide each other in the cross references
  (`Aggregate.SiblingsCompleteIff`, `Aggregate.OnePrefixHidesBoth`).
- Version comparison is no order on cores that mix numbers and text (`Versions.MixedComponentsCycle`,
  `Versions.OrderedIff`), and pre-releases compare as text where Semantic Versioning compares
  identifiers (`Precedence.AgreesWithSectionElevenIff`).

## Model

| member | source | states |
|---|---|---|
| EditDistance.Levenshtein | internal/diagnostic/didyoumean.go:72-106 | the result is the least number of single-character insertions, deletions and replacements, at any positions, that turn one word into the other |
| EditDistance.LevIsEditDistance | internal/diagnostic/didyoumean.go:70-106 | the recurrence behind the table is attained by some edit script and beaten by none |
| EditDistance.NoScriptIsShorter | internal/diagnostic/didyoumean.go:91-104 | lower bound: every edit script is at least as long as the computed distance |
| EditDistance.AttainingScript | internal/diagnostic/didyoumean.go:91-104 | upper bound: a script of exactly the computed length is constructed |
| EditDistance.OneEditIsNear | internal/diagnostic/didyoumean.go:91-104 | one edit at any position has distance at most one |
| EditDistance.LevTriangle | internal/diagnostic/didyoumean.go:72-106 | triangle inequality for all words |
| EditDistance.LevSymmetric | internal/diagnostic/didyoumean.go:72-106 | the distance is symmetric |
| EditDistance.LevZeroIffEqual | internal/diagnostic/didyoumean.go:72-106 | distance zero exactly for equal words |
| EditDistance.DidYouMean | internal/diagnostic/didyoumean.go:27-68 | exactly the pool entries within two edits or in a prefix relation, with multiplicity, sorted by true edit distance and then by name |
| EditDistance.SuggestionsAreUnique | internal/diagnostic/didyoumean.go:55-60 | that contract leaves one result only, so the pool order plays no part |
| DocPlan.MergeDocItems | internal/commands/workspace_docs.go:75-110 | one row per path known locally or on the server, strictly sorted, with the facts of the last entry on either side |
| DocPlan.MergeHolds | internal/commands/workspace_docs.go:75-110 | field by field: local facts of the last walked file of the path, server facts of the last listed document, and an indexed row starts out selected |
| DocPlan.MergeIsUnique | internal/commands/workspace_docs.go:102-109 | the merged list does not depend on map iteration order |
| DocPlan.ApplySyncSelection | internal/commands/workspace_sync.go:682-696 | in place, only the selection changes: ghosts off, new local files on |
| DocPlan.SelectionMirrorsDisk | internal/commands/workspace_sync.go:669-696 | after merge and selection exactly the rows with a local file are selected |
| DocPlan.ComputeDocDelta | internal/commands/workspace_docs.go:142-173 | each of the four slices is the in-order list of the rows of its bucket, and which rows those are, by flags, local file and cached hash |
| DocPlan.PlanSortsRow | internal/commands/workspace_docs.go:142-173 | the table of the delta: a row is inserted, re-uploaded, deleted or kept exactly for its two flags, its local file and its cached hash |
| DocPlan.PickKeepsOrder | internal/commands/workspace_docs.go:142-173 | every slice keeps the order of the rows |
| DocPlan.PlanPartitions | internal/commands/workspace_docs.go:112-130 | a row occurs in the slice of its bucket as often as in the input, and in no other slice |
| DocPlan.PlanCoversIff | internal/commands/workspace_docs.go:112-173 | the slices cover the input exactly when no row is unindexed and unselected or without a file |
| DocPlan.PlanCanMissRows | internal/commands/workspace_docs.go:146-150 | a row in no slice |
| DocPlan.SyncBucket | internal/commands/workspace_docs.go:132-173 | bucket of a sync row in terms of the walk, the listing and the cached hash |
| DocPlan.DiffDocs | internal/cache/docs_cache.go:105-130 | added, changed and unchanged files by cached hash and in walk order; deleted entries are the cached paths not walked, each once |
| DocPlan.DiffKeepsOrder | internal/cache/docs_cache.go:105-130 | the added, changed and unchanged files keep the order of the walk |
| DocPlan.PlanAgreesWithDiff | internal/cache/docs_cache.go:102-130 | when the server lists exactly the cached paths, the sync plan and the diff put every path in corresponding buckets |
| Upload.ReadChunk | internal/upload/pipeline.go:91-153 | the uploads are the paths and contents of the readable files of at most 5 MiB, each once and in order, and the index list names their files |
| Upload.ClassifyFailures | internal/upload/pipeline.go:168-180 | duplicates are counted and named as skipped, all other refusals as failed |
| Upload.RecordJobs | internal/upload/pipeline.go:200-214 | the i-th job is recorded under the i-th uploaded file, with the identifier of the job and hash and size of the file |
| Upload.RecordInline | internal/upload/pipeline.go:225-242 | exactly the named documents are recorded, each under the identifier of the reply, and counted |
| Upload.UploadChunk | internal/upload/pipeline.go:85-250 | counters and cache after one chunk, reply by reply: lost, polled in vain, polled, not waited for or inline |
| Upload.ChunkCounts | internal/upload/pipeline.go:91-250 | the four counters of a chunk for each kind of reply; a file that cannot be read has failed in all of them |
| Upload.UploadInBatches | internal/upload/pipeline.go:72-251 | the run is its chunks of fifty in order, threading counters and the shared cache |
| Upload.FiftyPerRequest | internal/upload/pipeline.go:72-90 | one request for every fifty files, the last of them for what is left |
| Upload.RunOnlyRecords | internal/upload/pipeline.go:65-69 | for every server, a changed cache entry carries hash and size of the input file with that path; all other entries are untouched |
| SyncRuns.TotalsAddUpIff | internal/upload/pipeline.go:28-50 | uploaded + failed + skipped is the number of files exactly when no chunk was polled in vain after a partial refusal, or left unpolled with accepted files |
| SyncRuns.RunOverwrites | internal/upload/pipeline.go:202-214 | the cache after a run, path by path, against a server that answers each upload once |
| SyncRuns.ServerAfterUploads | internal/upload/pipeline.go:85-224 | the server after a run, path by path |
| SyncRuns.UploadSoundIff | internal/upload/pipeline.go:186-214 | an upload run keeps cache and server in agreement exactly when each file is recorded and indexed alike, or the difference does no harm |
| SyncFlow.ToWalkerDocs | internal/commands/workspace_docs.go:177-191 | rows with a local file, in order |
| SyncFlow.WalkerDocsKeepOrder | internal/commands/workspace_docs.go:177-191 | the files keep the order of their rows |
| SyncFlow.RunSyncFlow | internal/commands/workspace_sync.go:226-430 | outcome, counters, saved cache and exit code of the document half; exactly when a sync is a dry run, waits for confirmation, has nothing to do, fails its preflight or is executed, and exactly which exit code the executed one ends with |
| SyncFlow.OutcomesAre | internal/commands/workspace_sync.go:226-430 | each outcome and each exit code has exactly its condition: dry run, `--yes` and the two thresholds, the preflight if there is something to upload, refused deletes before failed uploads |
| SyncFlow.ExecutedAs | internal/commands/workspace_sync.go:308-430 | what an executed sync saves, counts and exits with is what the theorems about syncs speak of |
| SyncFlow.UploadsAre | internal/commands/workspace_sync.go:226-276 | a sync uploads exactly the local files that cache and listing do not show as up to date |
| SyncFlow.DeletesAre | internal/commands/workspace_sync.go:669-696 | a sync deletes exactly the indexed paths without a local file |
| SyncFlow.UploadsAreDistinct | internal/commands/workspace_sync.go:275-276 | no path is uploaded twice in one sync |
| SyncFlow.NothingToDoChangesNothing | internal/commands/workspace_sync.go:269-272 | the early return is no special case |
| SyncFlow.AfterSyncAt | internal/commands/workspace_sync.go:308-380 | server and cache after a sync, path by path, for any behaviour of the server |
| SyncFlow.SyncSoundIff | internal/commands/workspace_sync.go:308-380 | a sync from a sound cache ends in one exactly when every upload is harmless; deletes never do damage |
| SyncFlow.RunSoundIff | internal/commands/workspace_sync.go:226-380 | over every run of edits and syncs the cache is sound throughout exactly when every sync was harmless |
| SyncFlow.RunClean | internal/upload/pipeline.go:28-50 | a waited-for run that reports nothing failed and nothing skipped has indexed and recorded every file |
| SyncFlow.ExitOkConvergesIff | internal/commands/workspace_sync.go:406-430 | whatever the cache was worth and whatever was skipped: exit code zero of a sync that waited means the server holds exactly the local documents, exactly when each was uploaded and indexed or was there in its version before |
| SyncFlow.SoundExitOkConvergesIff | internal/upload/pipeline.go:41-45 | from a sound cache, exactly when each document skipped as a duplicate was already there under its own path |
| SyncFlow.SuccessConvergesIff | internal/commands/workspace_sync.go:406-430 | if nothing was skipped, exactly when no document was stale before |
| SyncFlow.DuplicateExitsZero | internal/upload/pipeline.go:168-174 | a sound cache, one file, refused as a duplicate: exit code zero, and the server stays empty |
| SyncFlow.DuplicateIsUploadedAgain | internal/upload/pipeline.go:168-191 | such a document is not indexed under its path, and the next sync uploads it once more |
| SyncFlow.SuccessMeansConverged | internal/commands/workspace_sync.go:406-430 | from a sound cache and with nothing skipped the server always holds them, and the cache is sound and complete afterwards |
| SyncFlow.NothingToDoIff | internal/commands/workspace_sync.go:269-272 | a sync has nothing to do exactly when every local file is up to date and nothing else is indexed |
| SyncFlow.SecondSyncOnlyKeeps | internal/commands/workspace_sync.go:269-272 | a sync of a converged state with a complete cache plans only keeps |
| SyncFlow.HarmlessRunsExitOk | internal/commands/workspace_sync.go:226-430 | after any run whose syncs were harmless, refusals, lost replies and syncs without waiting included, a sync with exit code zero converges exactly when its skipped documents were already there, and the next one has nothing to do exactly when all files are then up to date |
| SyncFlow.HarmlessRunsConverge | internal/commands/workspace_sync.go:226-380 | after any such run a sync with exit code zero and nothing skipped converges, and the next one plans only keeps |
| SyncFlow.BenignRunsAreHarmless | internal/commands/workspace_sync.go:226-380 | waiting for replies that arrive, and documents that are all indexed, make a sync harmless |
| SyncFlow.BenignRunsStaySound | internal/commands/workspace_sync.go:226-380 | runs of edits and of such syncs keep the cache sound throughout, unreadable files and refused deletes included |
| SyncFlow.BenignRunsConverge | internal/commands/workspace_sync.go:226-380 | and so they converge |
| SyncFlow.StaleForever | internal/commands/workspace_docs.go:164-170 | a document the cache wrongly holds for current is never repaired by any sync in any world |
| SyncFlow.FailedIngestionTurnsStale | internal/upload/pipeline.go:202-214 | a changed document whose accepted job fails becomes such a document |
| SyncFlow.NoWaitThenRevertTurnsStale | internal/upload/pipeline.go:181-186 | so does one synced without waiting and then restored to the cached version |
| SyncFlow.RefusalShiftsEntries | internal/upload/pipeline.go:204-214 | a refused file receives the entry of the job that follows it |
| DocSpec.Resolve | internal/commands/workspace_docs_spec.go:181-265 | matched paths and unresolved literals of a sentinel, a literal list or a glob |
| DocSpec.NamesAre | internal/commands/workspace_docs_spec.go:181-265 | which rows each kind of spec names |
| DocSpec.UnresolvedCounts | internal/commands/workspace_docs_spec.go:181-265 | the unresolved paths are the typed ones without a row, as often as they were typed |
| DocSpec.NeverIndexedAre | internal/commands/workspace_docs_spec.go:363-385 | rows matched by a removal are reported exactly when they were never indexed |
| DocSpec.ApplySpecsToItems | internal/commands/workspace_docs_spec.go:337-388 | final selection of every row and the three lists of unresolved paths |
| DocSpec.SelectionIsPointwise | internal/commands/workspace_docs_spec.go:309-388 | indexed rows stay unless removed, others join if added |
| DocSpec.ReplacePlans | internal/commands/workspace_docs_spec.go:186-207 | `none` deletes every indexed row and nothing else; `all` deletes exactly the server-only rows |
| GlobRegexp.GlobPatternToRe | internal/commands/hooks/postuse_glob.go:203-246 | the emitted text, read as a regexp, accepts exactly the paths the glob matches; for a pattern without wildcard and backslash that is the pattern itself and nothing else |
| GlobRegexp.EmittedParses | internal/commands/hooks/postuse_glob.go:211-239 | emission and parsing are inverse; no operator swallows its neighbour |
| GlobRegexp.ItemsMeanGlob | internal/commands/hooks/postuse_glob.go:211-239 | regexp language and glob meaning agree construct by construct |
| GlobRegexp.CompilerIsCorrect | internal/commands/hooks/postuse_glob.go:203-246 | for every glob and path, with `**` confined to one line |
| GlobRegexp.CorrectOnPaths | internal/commands/hooks/postuse_glob.go:203-246 | on newline-free paths the regexp is the glob |
| GlobRegexp.NewlinesMatterIff | internal/commands/hooks/postuse_glob.go:216-221 | on all paths it is the glob exactly for patterns without `**` |
| GlobRegexp.ComponentsArePreserved | internal/commands/hooks/postuse_glob.go:222-226 | without `**` a match has as many separators as the pattern |
| GlobRegexp.LiteralsMatchThemselves | internal/commands/hooks/postuse_glob.go:227-236 | a pattern without wildcards matches exactly its own text with slashes for backslashes, regexp operators included |
| GlobRegexp.WildcardsAlone | internal/commands/hooks/postuse_glob.go:213-226 | the paths that `*`, `?`, `**` and `**/` match |
| GlobRegexp.DoubleStarSlashAbsorbs | internal/commands/hooks/postuse_glob.go:216-221 | `**/` lets the rest match in the middle of a component |
| Telemetry.Tracker.Record | internal/tracker/tracker.go:192-202 | one unflushed row with a fresh, larger identifier |
| Telemetry.Tracker.UnsentBuckets | internal/tracker/tracker.go:289-348 | one bucket per occurring day, source, filter, model and estimation, with the number of the unflushed rows that have them and the sums of their input, output and saved figures; and the identifiers of all unflushed rows |
| Telemetry.AggregateReports | internal/tracker/tracker.go:306-347 | the four totals of every bucket are the count and the three sums over its rows, and every row is in a bucket |
| Telemetry.SharedBucketIff | internal/tracker/tracker.go:306-347 | two events share a bucket exactly when the first ten characters of their timestamps, sources, filters, models and estimations agree |
| Telemetry.Tracker.MarkFlushed | internal/tracker/tracker.go:358-378 | exactly the identifiers of the chunks before the first refused one are marked |
| Telemetry.MarkedStops | internal/tracker/tracker.go:364-376 | five hundred identifiers at a time, up to the first chunk that the database refuses |
| Telemetry.Tracker.TryFlush | internal/telemetry/batcher.go:56-65 | nothing is marked unless the send function accepted the aggregate of what is marked |
| Telemetry.MarkedAllIff | internal/tracker/tracker.go:364-376 | everything is marked exactly when the database accepts every chunk of 500 |
| Telemetry.AggregateIsExact | internal/tracker/tracker.go:306-347 | a batch carries exactly the totals of its rows, key by key |
| Telemetry.StepKeepsInv | internal/telemetry/batcher.go:56-65 | each interleaved step keeps the batches in flight and accepted equal to the rows they stand for |
| Telemetry.StepCleanIff | internal/tracker/tracker.go:358-378 | only an incomplete marking makes a row count twice, and no later step makes up for it |
| Telemetry.BalancedIffClean | internal/tracker/tracker.go:286-348 | accepted plus unflushed totals are the recorded totals of every key exactly when no row was sent twice |
| Telemetry.LedgerBalancesIff | internal/telemetry/batcher.go:56-65 | over every interleaving from an empty table, the ledger balances between flushes exactly when no marking was cut short |
| Telemetry.RefusedMarkingUnbalances | internal/tracker/tracker.go:358-378 | a run that does not balance: its only row is accepted, its marking refused, and it stays unflushed |
| Telemetry.NothingMarkedUnsent | internal/telemetry/batcher.go:61-64 | in every run, whatever fails, a marked row was in an accepted batch |
| ManifestCache.NothingEverAhead | internal/daemon/manifest_cache.go:131-247 | at every point of a run that is not overtaken, cache entry and reads in flight are no newer than the disk |
| ManifestCache.BackwardsRenameIsOvertaken | internal/daemon/manifest_cache.go:202-226 | a step that moves the disk back is the rename of a refetch whose comparison a newer foreground sync followed |
| ManifestCache.OvertakenRenameGoesBack | internal/daemon/manifest_cache.go:202-226 | such a rename always moves the disk back |
| ManifestCache.CacheMovesForward | internal/daemon/manifest_cache.go:207-227 | where the entry is not newer than a manifest that has passed the comparison, no step but an invalidation takes it back |
| ManifestCache.DiskForwardIff | internal/daemon/manifest_cache.go:131-247 | for every interleaving the disk never goes backwards exactly when the sequence of steps nowhere has fetch, comparison, a newer foreground sync and the successful rename of one refetch in this order |
| ManifestCache.CacheForwardOverRuns | internal/daemon/manifest_cache.go:131-247 | in a run without an overtaken refetch a cache entry that is not invalidated only moves forward |
| ManifestCache.EntryGoesBackIff | internal/daemon/manifest_cache.go:131-247 | in every run, overtaken or not, a step other than an invalidation takes the entry back exactly when it renames a manifest under an entry that was installed into an empty cache from a newer read |
| ManifestCache.EntryGoesBackNeeds | internal/daemon/manifest_cache.go:131-247 | that takes an overtaken rename after the read, and an invalidation between that rename and the installation |
| ManifestCache.EntryCanGoBack | internal/daemon/manifest_cache.go:131-247 | a run in which the entry goes back without an invalidation in between |
| ManifestCache.FreshAfterInvalidateIff | internal/daemon/manifest_cache.go:131-159 | what a reader installs after an invalidation is at least as new as the disk was then, exactly when nothing newer was written between its read and the invalidation |
| ManifestCache.StaleReadOutlivesInvalidate | internal/daemon/manifest_cache.go:141-158 | a run in which an old read is installed after the invalidation |
| ManifestCache.EntryStays | internal/daemon/manifest_cache.go:131-159 | an entry stays until an invalidation or the rename of a refetch |
| ManifestCache.OvertakingLosesASync | internal/daemon/manifest_cache.go:207-226 | a run in which a foreground sync is lost |
| ManifestCache.AtomicCommitBackwardsIff | internal/daemon/manifest_cache.go:209-222 | an undisturbed commit goes backwards exactly when only the stored timestamp can be parsed |
| ManifestCache.CommitLandsIff | internal/daemon/manifest_cache.go:207-227 | progress: an undisturbed commit ends with its manifest on disk and cached, over a missing, unreadable or corrupt file too, exactly unless the rename fails or the disk is strictly later |
| ManifestCache.RefetchLandsIff | internal/daemon/manifest_cache.go:166-227 | amid any interleaving a refetch reaches its rename exactly unless the disk was strictly later at the comparison, and the rename lands |
| ManifestCache.Cache.InstallRead | internal/daemon/manifest_cache.go:151-158 | the first installed manifest is the one everybody shares |
| ManifestCache.Cache.Get | internal/daemon/manifest_cache.go:131-159 | hit, install, parse error or miss with a refetch, as steps of the transition system |
| ManifestCache.Cache.CommitRefetch | internal/daemon/manifest_cache.go:207-227 | the critical section is the comparison step followed by the rename step; it writes and caches exactly unless the rename fails or the disk holds a parsable, strictly later timestamp, and changes nothing otherwise; other workspaces are untouched |
| ManifestCache.Cache.Drop | internal/daemon/manifest_cache.go:243-247 | the invalidation step |
| Reconcile.WorkspaceManifest.Upsert | internal/cache/manifest.go:111-113 | the entry of its id is replaced |
| Reconcile.WorkspaceManifest.Remove | internal/cache/manifest.go:116-118 | the entry is gone, no-op if absent |
| Reconcile.WorkspaceManifest.All | internal/cache/manifest.go:121-127 | every entry once, in any order |
| Reconcile.Push | internal/commands/workspace_sync.go:593-616 | handled entries are pushed and cleared; at the first refused call the rest is untouched |
| Reconcile.PushedIs | internal/commands/workspace_sync.go:593-616 | a pushed deletion takes the entry out, any other pushed change clears its two flags and leaves the rest |
| Reconcile.Pull | internal/commands/workspace_sync.go:619-635 | the listing decides names, root paths and removals |
| Reconcile.Add | internal/commands/workspace_sync.go:638-647 | listed workspaces without an entry get one |
| Reconcile.ListedAt | internal/commands/workspace_sync.go:587-647 | of two listed workspaces with one id the pull pass takes the last, the add pass the first |
| Reconcile.ReconcileWorkspaceManifest | internal/commands/workspace_sync.go:579-650 | the final manifest, up to timestamps, as a function of the old one and the listing: with distinct listed ids exactly the listing, nothing left to push; calls and partial state on failure |
| Reconcile.ReconciledIsListing | internal/commands/workspace_sync.go:566-578 | with distinct listed ids the manifest has exactly those ids, names and root paths, nothing left to push, and a pending deletion only where one stood unmodified |
| Reconcile.ReconcilingTwice | internal/commands/workspace_sync.go:579-650 | a second reconciliation with the same listing changes nothing |
| Reconcile.CallsAreExact | internal/commands/workspace_sync.go:593-616 | one call per modified entry and no other |
| Reconcile.CallOrderOnly | internal/cache/manifest.go:120-127 | map order permutes the calls and changes nothing else |
| Reconcile.OldListingUndoesPush | internal/commands/workspace_sync.go:591-635 | a pushed rename is overwritten, and a pushed deletion comes back, when the listing predates it |
| Reconcile.OneRoundReachesIntentIff | internal/commands/workspace_sync.go:562-650 | with a listing from before the push an entry ends as the user wanted exactly when a listed, modified one is no deletion and repeats the listed name and root path |
| Reconcile.SecondRoundReachesIntent | internal/commands/workspace_sync.go:562-650 | with a listing taken after the pushed calls the manifest equals what the user wanted |
| StripQuoted.SkipHeredoc | internal/hooks/strip_quoted.go:178-203 | length of header and body up to the closing line, or everything |
| StripQuoted.WordHeader | internal/hooks/strip_quoted.go:8-16 | every header is recognised: `<<`, an optional dash, white space, and a quoted word on one line or a whole name |
| StripQuoted.HeaderHasWord | internal/hooks/strip_quoted.go:8-16 | and nothing else is |
| StripQuoted.ClosesIff | internal/hooks/strip_quoted.go:193-198 | a line closes a heredoc exactly if it is tabs and blanks and then the delimiter |
| StripQuoted.LineCloses | internal/hooks/strip_quoted.go:193-203 | the heredoc then ends behind the newline of that line, or at the end of the input |
| StripQuoted.SkipDollarParen | internal/hooks/strip_quoted.go:143-168 | the nested recursion equals a flat scan with one counter, on every input, heredocs included |
| StripQuoted.FlatNests | internal/hooks/strip_quoted.go:135-168 | closing inner and outer parentheses is closing the inner ones and then the outer ones |
| StripQuoted.FlatIsFirstClose | internal/hooks/strip_quoted.go:135-168 | without `<<` the scan stops right after the first position where no parenthesis is open, or at the end |
| StripQuoted.ScanBody | internal/hooks/strip_quoted.go:74-99 | end of a double-quoted body with escapes and substitutions |
| StripQuoted.BodyEndsIff | internal/hooks/strip_quoted.go:74-99 | a quoted text without substitutions is read to its closing quote exactly when each quote in it follows an odd number of backslashes and the closing one does not |
| StripQuoted.QuotedHeredocIff | internal/hooks/strip_quoted.go:91-99 | a heredoc in double quotes is passed over, as promised, exactly when its quotes are escaped |
| StripQuoted.QuotedHeredocLeaks | internal/hooks/strip_quoted.go:91-99 | the word quoted in such a heredoc is all that is left of the input, of which the promise leaves nothing |
| StripQuoted.StripQuoted | internal/hooks/strip_quoted.go:37-133 | terminates on every input with the skeleton |
| StripQuoted.SkeletonIsClean | internal/hooks/strip_quoted.go:18-36 | the skeleton is a subsequence of the input and contains no quote |
| StripQuoted.PlainTextStays | internal/hooks/strip_quoted.go:129-131 | ordinary characters are kept |
| StripQuoted.SingleQuotesVanish | internal/hooks/strip_quoted.go:48-56 | stripping a'b'c gives a and the stripped c |
| StripQuoted.DoubleQuotesVanish | internal/hooks/strip_quoted.go:68-106 | likewise for double quotes around text without substitutions and with its quotes escaped, heredoc operators included |
| StripQuoted.SubstitutionsVanish | internal/hooks/strip_quoted.go:108-112 | likewise for balanced command substitutions without heredocs, nested ones and quotes included |
| StripQuoted.HeredocCannotClose | internal/hooks/strip_quoted.go:135-142 | no parenthesis in a heredoc closes the substitution around it: the scan ends at the parenthesis that does, whatever the heredoc contains |
| StripQuoted.HeredocSubstitutionVanishes | internal/hooks/strip_quoted.go:108-112 | a substitution with a heredoc disappears with all its content |
| StripQuoted.QuotedHeredocSubstitutionVanishes | internal/hooks/strip_quoted.go:68-90 | so does a double-quoted text around such a substitution |
| StripQuoted.QuotedSubstitutionVanishes | internal/hooks/strip_quoted.go:68-90 | and around any substitution that is closed where it ends |
| StripQuoted.CommitMessageVanishes | internal/hooks/strip_quoted.go:23-26 | a commit message passed as a heredoc in a quoted substitution leaves the bare command, for every message without a closing line and every delimiter |
| StripQuoted.OpenHeredocSwallowsAll | internal/hooks/strip_quoted.go:114-127 | an open heredoc drops the rest with its header |
| StripQuoted.HeredocsVanish | internal/hooks/strip_quoted.go:114-118 | a closed heredoc disappears and the scan goes on right behind its closing line |
| StripQuoted.MessageHeredocVanishes | internal/hooks/strip_quoted.go:178-203 | so the command behind a heredoc stays visible, for every message without a closing line and every delimiter |
| StripQuoted.AnsiQuotesVanish | internal/hooks/strip_quoted.go:58-66 | an ANSI-C string disappears like a single-quoted one |
| StripQuoted.LoneCharactersStay | internal/hooks/strip_quoted.go:108-131 | a dollar sign before neither a parenthesis nor a quote, and a `<` that opens no heredoc, are kept |
| StripQuoted.OpenQuoteSwallowsAll | internal/hooks/strip_quoted.go:48-66 | an open single quote or ANSI-C string drops the rest and keeps what came before |
| StripQuoted.OpenDoubleQuoteSwallowsAll | internal/hooks/strip_quoted.go:68-106 | so does an open double quote around text without substitutions |
| StripQuoted.OpenSubstitutionSwallowsAll | internal/hooks/strip_quoted.go:135-168 | and a substitution that is never closed |
| StripQuoted.BrokenHeredocSwallowsAll | internal/hooks/strip_quoted.go:147-155 | and a substitution with a `<<` in it that opens no heredoc |
| Aggregate.MemberPrefix | internal/codereview/aggregate.go:274-303 | one to four characters without a dash |
| Aggregate.PrefixesAre | internal/codereview/aggregate.go:274-303 | the prefixes of the known members in either case, and of any other name its first four characters as capitals, digits or X |
| Aggregate.FillsOnlyEmptyFields | internal/codereview/aggregate.go:211-254 | required fields end up non-empty and non-empty ones are never overwritten; what each empty one is filled with |
| Aggregate.Collect | internal/codereview/aggregate.go:305-325 | all findings of all members in order with their member identifiers |
| Aggregate.GroupByPlace | internal/codereview/aggregate.go:337-345 | the groups are the positions of equal file and line |
| Aggregate.MergeGroup | internal/codereview/aggregate.go:349-378 | a group with two lanes gets its sorted cross references, any other group is unchanged |
| Aggregate.MergeGroups | internal/codereview/aggregate.go:347-378 | the merge of all groups is pointwise, whatever order the map yields them in |
| Aggregate.Number | internal/codereview/aggregate.go:380-399 | global identifiers by position and the severity counts |
| Aggregate.CountIsNumber | internal/codereview/aggregate.go:390-398 | a severity count is the number of findings with that severity in small letters |
| Aggregate.Aggregate | internal/codereview/aggregate.go:270-412 | the consolidated findings, members and counts, severities being counted in either case |
| Aggregate.PreservesAll | internal/codereview/aggregate.go:24-30 | the i-th consolidated finding is the i-th reported one with empty fields filled; outside cross-lane groups the overlap fields are the incoming ones |
| Aggregate.OverlapIff | internal/codereview/aggregate.go:327-378 | a finding ends up marked exactly if it was so reported or another member reported one for the same line of the same file, no line counting as line 0 |
| Aggregate.GlobalIdsDistinct | internal/codereview/aggregate.go:387 | global identifiers never repeat, for any count |
| Aggregate.IdsAreUnique | internal/codereview/aggregate.go:317-323 | with distinct prefixes member identifiers are unique |
| Aggregate.SiblingsAre | internal/codereview/aggregate.go:362-376 | the references are sorted and are the identifiers at the same place other than the own one |
| Aggregate.RefersToAllOthers | internal/codereview/aggregate.go:327-378 | in a cross-lane group a finding refers to every other finding of the group and to nothing else |
| Aggregate.ReferencesAreSymmetric | internal/codereview/aggregate.go:327-378 | cross references are mutual |
| Aggregate.SiblingsCompleteIff | internal/codereview/aggregate.go:367-376 | all others are listed exactly when none shares the finding's identifier |
| Aggregate.OnePrefixHidesBoth | internal/codereview/aggregate.go:317-376 | two members with one prefix and one finding each at the same place: both are marked as overlapping, neither refers to the other |
| Aggregate.CaseSharesPrefix | internal/codereview/aggregate.go:274-303 | qa and QA are such members |
| Decimal.ValueOfRender3 | internal/codereview/aggregate.go:387 | the padded number can be read back, however long it is |
| Decimal.NoLeadingZeros | internal/codereview/aggregate.go:317-387 | at least three digits, and no zero in front beyond that |
| Versions.CompareNumeric | internal/commands/upgrade.go:255-285 | the first deciding component, missing ones counting as zero |
| Versions.IsOutdated | internal/commands/upgrade.go:208-240 | older core, or equal core and older pre-release |
| Versions.NormalizeStrips | internal/commands/upgrade.go:242-247 | white space around a tag, one "cli-" and then one "v" in front of it are taken off, and nothing else |
| Versions.ParseIs | internal/commands/upgrade.go:218-235 | what stands before the first dash is the core, what follows it the pre-release |
| Versions.AtoiReads | internal/commands/upgrade.go:266-267 | decimal numbers within 64 bits are read as such, with or without a sign |
| Versions.AtoiRefuses | internal/commands/upgrade.go:266-268 | a component with any other character is text |
| Versions.EmptyIsZero | internal/commands/upgrade.go:258-265 | empty and missing components count as zero, any other one as it stands |
| Versions.FirstDifferenceDecides | internal/commands/upgrade.go:258-283 | the first components that are neither equal numbers nor equal text decide: by value if both are numbers, in text order otherwise |
| Versions.CompareIsAntisymmetric | internal/commands/upgrade.go:249-285 | swapping the arguments negates the result on all strings |
| Versions.CompareIsTransitive | internal/commands/upgrade.go:249-285 | the comparison is a total preorder on comparable cores |
| Versions.ConsistentIffNoMisfit | internal/commands/upgrade.go:266-282 | three components are ordered consistently exactly when none is text standing between two numbers that are ordered the other way |
| Versions.SameKindsAreComparable | internal/commands/upgrade.go:266-282 | cores of numbers only are comparable |
| Versions.EqualUpToPadding | internal/commands/upgrade.go:250-254 | numeric cores tie exactly when they agree up to zero padding |
| Versions.BeforeIsAsymmetric | internal/commands/upgrade.go:208-240 | never older than itself, never both ways, on all versions |
| Versions.OrderedIff | internal/commands/upgrade.go:208-285 | any three versions are ordered, with a transitive tie, exactly when their cores tie throughout or fit where they first split: no misfit among three different components, and no component between two tied ones that the rest of their versions puts the other way |
| Versions.BeforeIsStrictWeakOrder | internal/commands/upgrade.go:208-240 | strict weak order on versions with comparable cores, numeric ones among them |
| Versions.PreReleaseComesFirst | internal/commands/upgrade.go:223-239 | a pre-release comes right before its release |
| Versions.MixedComponentsCycle | internal/commands/upgrade.go:252-276 | 2, 10 and 1a are each older than the next |
| Precedence.AgreesWithSectionElevenIff | internal/commands/upgrade.go:225-239 | two pre-releases of one core compare as in section 11 of Semantic Versioning exactly when the text order finds the order of their first differing identifiers: digits counted, numbers before text, no dot against a hyphen |
| Precedence.PreReleaseNumbersCompareAsText | internal/commands/upgrade.go:239 | a longer number whose text comes first is taken for older, as rc.10 for older than rc.9 |
| Precedence.HyphenComesBeforeDot | internal/commands/upgrade.go:239 | alpha-x is taken for older than alpha.1, for every identifier in their place |
| Walker.IgnoreMatcher.AddLines | internal/walker/walker.go:414-418 | the lines are appended, in place while the backing array has room, and nothing is compiled |
| Walker.LinesAre | internal/walker/walker.go:414-418 | one pattern for each line of the text, without the carriage returns at its end |
| Walker.IgnoreMatcher.Matches | internal/walker/walker.go:420-426 | the lazy matcher answers as one recompiled from all its lines |
| Walker.IgnoreMatcher.Clone | internal/walker/walker.go:428-442 | a new matcher with the same lines in a backing array of its own |
| Walker.CopiesDiverge | internal/walker/walker.go:428-442 | patterns learned by one copy or by the original reach no other one |
| Sensitive.HasDelimited | internal/walker/sensitive.go:86-106 | the search loop finds a letter-delimited occurrence exactly when there is one |
| Sensitive.MatchSensitiveName | internal/walker/sensitive.go:80-110 | some keyword, singular or plural, occurs delimited in the lower-cased name |
| Sensitive.IsSensitive | internal/walker/sensitive.go:57-72 | a path pattern matches, or the last element names a keyword |
| Sensitive.PatternIff | internal/walker/sensitive.go:22-31 | the path patterns take exactly the paths with one of nine suffixes, one of ten names, an environment file or one of three directories in them |
| Sensitive.SuffixIff | internal/walker/sensitive.go:24-30 | a path ends in a suffix exactly if it is some text and then the suffix |
| Sensitive.NamesSecretIff | internal/walker/sensitive.go:51-110 | a name is taken exactly if one of six words stands in it with no letter next to it, in either case |
| Sensitive.BaseOfDirectory | internal/walker/sensitive.go:70-71 | separators at the end make no difference to the name that is looked at |
| Sensitive.SecretNamesAreSecret | internal/walker/sensitive.go:69-71 | a name with a delimited keyword is on the list in every directory |
| Sensitive.SecretSecretary | internal/walker/sensitive.go:77-79 | names with a delimited occurrence and one with a letter behind it, as secret-secretary.md, are on the list |
| Walker.ExtOfJoined | internal/walker/classify.go:93-99 | the extension of a joined path is that of its last name |
| Walker.SameBucket | internal/walker/classify.go:69-99 | the document test on the name is the code walker's test on the path |
| Walker.DocPathIff | internal/walker/classify.go:69-99 | documents are exactly the paths that end, in either case, in one of five extensions |
| Walker.DefaultIgnoredIff | internal/walker/sensitive.go:134-165 | the three paths that are ignored by default, at any depth |
| Walker.WalkDirectory | internal/walker/walker.go:248-320 | files of a directory and the patterns left in the matcher, for either walker |
| Walker.NestedPatternsStay | internal/walker/walker.go:259-316 | the patterns of a directory stay in force for everything visited after it with the same matcher; nothing else adds any |
| Walker.VisitEntry | internal/walker/docs_walker.go:66-142 | one entry: hidden, symbolic link, directory or file |
| Walker.ProcessFile | internal/walker/walker.go:197-232 | the tests on a file in order, the blocklist and the ignore rules before it is opened |
| Walker.WalkDocs | internal/walker/docs_walker.go:36-47 | the document walk with one matcher for the whole tree |
| RepoWalk.Subtree.Step | internal/walker/walker.go:266-318 | one turn of a goroutine visits its next entry with its own matcher and results |
| RepoWalk.StepKeepsFinish | internal/walker/walker.go:248-320 | no turn changes what a goroutine will have found |
| RepoWalk.StartedFinishes | internal/walker/walker.go:161-173 | turn by turn a goroutine finds what the recursive walk finds |
| RepoWalk.ScheduleDoesNotMatter | internal/walker/walker.go:161-173 | under every schedule a goroutine that is done has found that |
| RepoWalk.PartsAreWhole | internal/walker/walker.go:96-137 | splitting the listing into inline files and parallel directories loses and repeats nothing |
| RepoWalk.EveryScheduleFindsTheSame | internal/walker/walker.go:139-185 | every complete schedule opens and returns the files of the top-level entries walked one after the other |
| RepoWalk.SomeScheduleCompletes | internal/walker/walker.go:175-177 | all goroutines can be run to their end |
| RepoWalk.RunAll | internal/walker/walker.go:155-177 | objects that take turns in arbitrary order while others are started end with those results, and share nothing |
| RepoWalk.WalkRepo | internal/walker/walker.go:78-191 | sorted, and those files, whatever turns the goroutines took |
| Walker.DocPathsAreGood | internal/walker/docs_walker.go:49-144 | no document path is opened, let alone returned, that matches a path pattern, whose last element holds a delimited keyword, that is hidden, too deep or a code path |
| Walker.DocPathsAreDistinct | internal/walker/docs_walker.go:49-144 | no document path is returned twice |
| Walker.DocsReturnIff | internal/walker/docs_walker.go:22-35 | the document walker returns exactly the readable, visible documents that neither the blocklist nor an ignore rule in force excludes, default-ignored ones only with an opt-in |
| RepoWalk.CodePathsAreGood | internal/walker/walker.go:55-68 | no code path is opened, let alone returned, that matches a path pattern, whose last element holds a delimited keyword, that is hidden, too deep or a document path |
| RepoWalk.CodeReturnsIff | internal/walker/walker.go:50-77 | the code walker returns exactly the other files that nothing excludes |
| RepoWalk.ExactlyOneWalker | internal/walker/classify.go:8-13 | a file that nothing excludes is returned by exactly one walker, default-ignored documents aside |
| RepoWalk.WalkersAreDisjoint | internal/walker/classify.go:8-13 | no path is opened or returned by both walkers, for any tree and any ignore files |
| RepoWalk.TopLevelsAreDistinct | internal/walker/walker.go:139-185 | no code path is returned twice |
| RepoWalk.RepoWalkIsUnique | internal/walker/walker.go:70-77 | the sorted results under any two complete schedules are the same list, without repetitions |
| DevicePolling.PollForToken | internal/auth/device_flow.go:117-202 | which attempts send a request, the wait after them, and the reason for stopping; terminates for every clock and server |
| DevicePolling.PollsPatiently | internal/auth/device_flow.go:129-191 | requests go on only after a pending answer or one of at most eight `slow_down`s, within the window and uncancelled, and each of those makes the wait five seconds longer, up to a minute |
| DevicePolling.TellsWhy | internal/auth/device_flow.go:129-202 | the outcome names what ended the poll: the last answer, a ninth `slow_down`, a cancellation, the cap or the window |
| DevicePolling.RequestBound | internal/auth/device_flow.go:17-27 | at most expiry / interval + 1 requests, never more than 361, so the cap of 720 is never reached |
| DevicePolling.BoundIsTight | internal/auth/device_flow.go:17-27 | 361 requests can happen |
| DevicePolling.SlowDownsAreLimited | internal/auth/device_flow.go:182-191 | at most nine `slow_down` answers, and waits never shrink |
| Ordering.SortSorts | internal/walker/walker.go:187-188 | what the sorting calls are taken to promise: sorted by a total preorder |
| Ordering.LeqIsLexicographic | internal/diagnostic/didyoumean.go:55-60 | Go string order: the first difference decides, and a prefix comes before what it is a prefix of |
| Ordering.SortedIsUnique | internal/commands/workspace_docs.go:106-108 | a sorted permutation is unique where the order has no ties |

## Left out

- HTTP transport, retries, prompts, spinners, tables, JSON and the loading and saving of files: the model starts from decoded values and ends at the call.
- SyncRuns.EnvOf: the server of the run theorems answers asynchronously; the legacy inline reply is modelled in the uploader and covered by the theorems about arbitrary replies only.
- SyncFlow.RunSyncFlow: a failing save of the document cache, billing figures and printed text are not modelled; files do not change between the walk and the upload, and nobody else writes to the server between two syncs.
- EditDistance.DidYouMean: lower-casing is a parameter, and the formatting of the suggestion sentence is left out as trivial.
- DocSpec.Resolve: `path.Match` is a parameter; parsing the flag value into a spec and reading `@file` lists are left out.
- GlobRegexp.Accepts: only the regexp subset that the compiler emits is parsed; invalid UTF-8 patterns, for which the source falls back to a regexp that matches nothing, are not modelled.
- Telemetry.Tracker.UnsentBuckets: sums are unbounded integers where the source adds 64-bit ones, and timestamps shorter than ten characters, on which the source panics, are excluded; database read errors and the 90-day cleanup are left out.
- ManifestCache.DiskForwardIff: the collision of temporary file names between processes is left out, and so is a deletion of the file; singleflight appears as "at most one refetch per workspace".
- StripQuoted.HeaderOf: the two heredoc regexps are written out by hand.
- Aggregate.Aggregate: case mapping is modelled as far as it yields ASCII, the constant fields of the result are left out, and so is the reading of the staging directory.
- Precedence.AgreesWithSectionElevenIff: about well-formed pre-releases; build metadata, which the code takes for part of the core or of the pre-release, is not part of it.
- RepoWalk.WalkRepo: a turn is one directory entry; the limit on running goroutines only rules schedules out. The folder list, file contents and line counts are left out.
- Walker.Rules: the gitignore engine and the re-rooting of nested patterns are parameters; nothing is claimed about what such a pattern means.
- Sensitive.MatchesPattern: the eight regular expressions are written out by hand.
- DevicePolling.RequestBound: assumes a clock that advances at least as far as each wait asked for.
- The advisory lock, the pending-events queue, run-output filters, prompt vocabulary and configuration keys would only add easy members or have no end-to-end promise.
