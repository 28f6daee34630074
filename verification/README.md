# Replay simulator: a verified model

The repository records what coding agents do in containers and replays the traces later. This project
models the parts of the replay simulator and its sandbox whose correctness is hardest to see from the
code, and proves what they promise. It is checked with

    dafny verify dfyconfig.toml

## What is modelled

**Checkpoints.** A source trace carries full and incremental manifests. `FileTree.dfy` and
`Manifest.dfy` model the live tree, manifests, their fold into one expected state, and the comparison.
`Restore.dfy` is the script that writes a manifest into the live tree, step by step on a mutable tree,
with deletions that follow links (`LinkWalk.dfy`); `RestoreFold.dfy` works out what it does to every
path, and `RestoreSuccess.dfy` exactly when it runs to its end. `CheckpointChain.dfy` picks the chain of
manifests for an action and restores it, and `CaptureRoundTrip.dfy` takes a tree through its own manifest.
`ChainRefinement.dfy` proves when restoring and folding agree: at every stage, at the end, and which
of the conditions can be read off the manifests alone. `Listing.dfy` is the text in which `find` prints
the changed files and the way it is read back, and `Snapshot.dfy` the incremental capture with its
marker file and the cache one replay session keeps. `CasPrune.dfy` models garbage collection of blobs.

**Resource watchdog.** `ResourceTimeline.dfy` turns cumulative counters into intervals;
`Watchdog.dfy` turns intervals back into demand, advances a virtual clock and stops on timeout or
stall. `WatchdogRuns.dfy` and `WatchdogTermination.dfy` hold the theorems about whole runs. Times and
counters are reals.

**Scheduling.** `Scheduler.dfy` (the bounded queue) and `StartProtocol.dfy` (barrier, event and shared
start time, with abort) are transition systems whose steps are the stretches of code between two
suspension points, under any interleaving and with injected failures. `WorkerWaves.dfy` splits inputs
into waves and chunks and models the shared preparation semaphore.

**Smaller machines.** `SourceGaps.dfy` (idle time), `TraceMerge.dfy` (merge and split of worker
traces), `ReplayIds.dfy`, `Regex.dfy` with `OutputNormalize.dfy` (the six substitution passes, with the
expressions written as data and matched by backtracking) and `OutputPatterns.dfy` (what the expressions
match, character by character), `PosixPath.dfy` with `FakeBackend.dfy` (the
in-memory sandbox), `RetryLoop.dfy` and `ContainerAgent.dfy`.

## Findings

Some properties that the code or its comments suggest do not hold everywhere. Each finding has a lemma
at an input where the property fails and, where one is named, the exact condition under which it holds.

- A manifest that deletes a directory without deleting the files below it restores without error, but
  the folded state keeps the files, so the comparison reports a mismatch
  (`ChainRefinement.DeletedDirectoryDiverges`).
- A deleted path below a link removes the file the link leads to, while the fold keeps that file
  (`ChainRefinement.LinkedDeletionDiverges`). Restore and fold agree at every stage exactly when the
  recorded and deleted paths are compatible with what the deletions really remove
  (`ChainRefinement.RestoreRefinesFold`); where no deleted path runs below a link of the state before
  it, that can be read off the manifests (`ChainRefinement.ManifestsDecide`). The final tree is right
  exactly when both sides keep the same paths (`ChainRefinement.FinalTreeExact`).
- A change of mode alone does not move the mtime, so the incremental capture misses it
  (`Snapshot.ModeChangeIsMissed`; `Snapshot.OneStepExact` is the condition).
- A new file with a line boundary in its path, or with white space at its end as the only one listed, is
  not recognised as changed, and the next capture is wrong (`Snapshot.BrokenNameIsMissed`,
  `Snapshot.TrailingNameIsMissed`, with such names in `Snapshot.GarbledNames`). The list comes through
  exactly when it is legible (`Listing.ListingExact`).
- A restore that fails halfway leaves the cached manifest in place, and the next incremental capture can
  be wrong (`Snapshot.FailedRestoreIsMissed`; `Snapshot.CaptureExact` is the condition).
- A worker that fails while loading its inputs never aborts the barrier; its peers then wait for ever
  unless another worker fails later (`StartProtocol.LostWorkerStrandsAnother` is such a run,
  `StartProtocol.WhoWaitsAtTheEnd` the condition).
- A snapshot of `FakeBackend` comes back unchanged for every root but `/` and `//`, and for those exactly
  when no file's path consists of slashes only (`FakeBackend.RoundTripIffPortable`;
  `FakeBackend.RootFileIsLost` is a store that is lost).
- `ContainerAgent.execute` can raise although every restart succeeds: when a line is too long for the
  stream reader (`ContainerAgent.OverlongLineRaises`), or when the connection is reset while stray lines
  are skipped (`ContainerAgent.ResetWhileSkippingRaises`). `ContainerAgent.RaisesExactly` is the condition.

One order that looks doubtful holds on every input: a summary without a timestamp follows all actions of
the merged trace, even those without a start time (`TraceMerge.SummaryComesLast`).

## Model

| member | source | states |
|---|---|---|
| FileTree.CaptureIsView | src/trace_collect/simulator.py:1353-1388 | On trees where no file or link is named .git, a full capture records exactly the files and links on paths without a .git component |
| Manifest.FoldManifest | src/trace_collect/simulator.py:1734-1785 | The loop over entries, the update and the deletions compute the fold: skipped, ignored and rejected entries, and a full manifest forgets what came before |
| Manifest.CompareIsMatch | src/trace_collect/simulator.py:1617-1665 | The comparison reports a match exactly when both sides have the same paths and each replayed entry is acceptable for the source's, modes counting only where both are known |
| Restore.LiveTree.EnsureParentDir | src/trace_collect/simulator.py:1105-1118 | Makes the missing directories on the way to a path in place and stops at the first thing that is no directory |
| Restore.LiveTree.WriteEntry | src/trace_collect/simulator.py:1162-1200 | One turn of the file loop or the link loop, with its refusals, what it replaces and what it leaves when it fails after writing |
| Restore.LiveTree.ClearRoot | src/trace_collect/simulator.py:1127-1135 | Removes every top-level name but .git, with all below it |
| Restore.LiveTree.DeletePaths | src/trace_collect/simulator.py:1136-1145 | Removes what each deleted path leads to, with all below it, in the given order; links on the way are followed, so that may be another path, something outside the root, or the root itself, after which the script fails |
| LinkWalk.LocateWithoutLinks | src/trace_collect/simulator.py:1136-1145 | A path with no link above it leads to itself, or nowhere when a directory on the way is missing |
| LinkWalk.WalkIsLexical | src/trace_collect/simulator.py:1136-1145 | Where there are no links a walk that arrives goes where normalising the path leads |
| Restore.LiveTree.RestoreManifest | src/trace_collect/simulator.py:1120-1200 | The whole script on the live tree: path checks, clear or delete deepest first, type checks, files, then links; stops at the first failure |
| RestoreFold.PutLeaves | src/trace_collect/simulator.py:1173-1200 | A successful write puts its node at the path, leaves nothing below it, keeps every other leaf, and never runs through a leaf |
| RestoreFold.PlanLeaves | src/trace_collect/simulator.py:1162-1200 | After a successful sequence of writes each path holds what was written there, nothing if a written path lies above it, and otherwise what it held before |
| RestoreFold.DeleteLeaves | src/trace_collect/simulator.py:1136-1145 | The deletion loop empties exactly the places its deletions lead to and what lies below them, whatever their order |
| RestoreFold.PlainlyGone | src/trace_collect/simulator.py:1136-1145 | Deletions that meet no link all succeed, and a recorded path goes exactly when it lies at or below a deleted one |
| RestoreFold.ClearLeaves | src/trace_collect/simulator.py:1127-1135 | Clearing keeps the leaves below a top-level .git and no others |
| RestoreFold.ScriptView | src/trace_collect/simulator.py:1120-1202 | What a successful script leaves at every path, from the manifest, the tree before and what the deletions really remove; and such a manifest can always be folded |
| RestoreFold.ScriptKeepsNoGit | src/trace_collect/simulator.py:1120-1202 | A script that succeeds with a manifest that records no .git leaves no file or link of that name, if there was none or the root was cleared |
| RestoreFold.ReadsTheRecords | src/trace_collect/simulator.py:1734-1785 | Reading a manifest fails exactly on an entry outside .git of unknown type or a link without a target, and otherwise yields just the digest and the twelve mode bits, or the target, of the entries that have one |
| RestoreSuccess.ScriptSucceeds | src/trace_collect/simulator.py:1120-1202 | The script runs to its end exactly when all paths are safe, no deletion leads to the root, each entry outside .git is a file with a readable blob and no null mode or a link with a target, no leaf that stands or was written earlier is above its place, and no link or special node is at the place of a file |
| RestoreSuccess.ClearedRootTakesAny | src/trace_collect/simulator.py:1120-1202 | A cleared root, whatever it held, takes any manifest of sound entries in which none lies below another; missing directories are made |
| RestoreSuccess.RestoredFile | src/trace_collect/simulator.py:1162-1200 | A restored file has the blob, the bits of its mode or 0644, and its mtime or the present; a restored link its target |
| RestoreSuccess.GitIsLeftAlone | src/trace_collect/simulator.py:1127-1145 | A script that clears the root, or whose deletions meet no link, changes nothing below the top-level .git |
| RestoreSuccess.DeletesDeepestFirst | src/trace_collect/simulator.py:1136-1136 | Deletions go deepest first, and those of one depth in the order of the manifest |
| CaptureRoundTrip.CaptureRestores | src/trace_collect/simulator.py:1120-1202 | The capture of any stored tree, written as a manifest in any order and restored into any other tree, restores without error and makes the other tree show the same files, modes and links |
| CaptureRoundTrip.ChainSucceeds | src/trace_collect/simulator.py:2047-2095 | A chain restores exactly when each of its manifests is of a known kind, can be read, and can be restored on the tree it comes upon |
| CheckpointChain.FoldThroughAction | src/trace_collect/simulator.py:1710-1731 | The loop over actions computes the fold up to the target, for targets before the first and past the last action too |
| CheckpointChain.UnmarkedReplaces | src/trace_collect/simulator.py:1744-1785 | A checkpoint without the flag and of another kind than incremental folds to its own entries whatever came before, and one that cannot be read changes nothing |
| CheckpointChain.MarkedUpdates | src/trace_collect/simulator.py:1744-1785 | A checkpoint with the flag or of the incremental kind keeps every earlier path it neither records nor deletes, and replaces or drops the others |
| CheckpointChain.ChainForAction | src/trace_collect/simulator.py:2006-2044 | A chain exists exactly when the target has a checkpoint and some checkpoint up to it lacks both incremental marks; it is then the checkpoints from the last such one to the target, in order, all but the first with a mark, and a target without marks is a chain by itself |
| CheckpointChain.ChainDecidesFold | src/trace_collect/simulator.py:1710-1731 | When the head of the chain can be read, folding all actions up to the target is folding the chain alone from nothing, unless an exception was raised before the head |
| CheckpointChain.FallbackFoldsSame | src/trace_collect/simulator.py:4900-4910 | Actions without a checkpoint change nothing, so falling back to an earlier checkpoint folds to the same state |
| CheckpointChain.RestoreCheckpoint | src/trace_collect/simulator.py:1901-2003 | One manifest restored in place, refused when it is of another kind or cannot be read |
| CheckpointChain.RestoreChainInto | src/trace_collect/simulator.py:2047-2095 | Restores the chain in order, clears the root for its first manifest only, stops at the first failure, refuses an empty chain |
| ChainRefinement.FullStageExact | src/trace_collect/simulator.py:1734-1785 | A full manifest, cleared and restored over any tree, gives its folded state exactly when no recorded path lies below another |
| ChainRefinement.IncrementalStageExact | src/trace_collect/simulator.py:1734-1785 | From states that agree, an incremental manifest restores to what it folds to exactly when it is compatible with the state folded before and with what its deletions really remove |
| ChainRefinement.OrdinaryIsCompatible | src/trace_collect/simulator.py:1734-1785 | A condition to read off a manifest and the state before it: entries and deletions disjoint, no recorded path above another that stays, and nothing left alive below a deleted path |
| ChainRefinement.PlainManifestDecides | src/trace_collect/simulator.py:1136-1145 | On a tree that agrees with the fold, deletions that name no path below a link of the fold all succeed, and the condition on the stage is one on the manifest and the state before |
| ChainRefinement.RecordedDeletionsArePlain | src/trace_collect/simulator.py:1136-1145 | Deletions of paths the fold holds are of that kind |
| ChainRefinement.StageExact | src/trace_collect/simulator.py:2047-2095 | Stage k of a restore agrees with stage k of the fold exactly when that stage's condition on the manifests holds |
| ChainRefinement.RestoreRefinesFold | src/trace_collect/simulator.py:2047-2095 | Whatever the tree held before, a chain that restores reaches the folded state after every one of its manifests exactly when every stage is compatible with what it really deletes |
| ChainRefinement.ManifestsDecide | src/trace_collect/simulator.py:2047-2095 | Where no deleted path runs below a link of the state folded before it, it does so exactly when the manifests are compatible among themselves |
| ChainRefinement.FinalTreeExact | src/trace_collect/simulator.py:2047-2095 | A chain that restores ends in the folded state exactly when fold and tree keep the same paths, even when a stage on the way differed |
| ChainRefinement.RestoredTree | src/trace_collect/simulator.py:2047-2095 | A chain that restores leaves a well-formed tree with no file or link named .git, if its manifests record none |
| ChainRefinement.RunOf | src/trace_collect/simulator.py:2047-2095 | What the restore loop computes is the end of such a sequence of trees |
| ChainRefinement.ForcedSyncExact | src/trace_collect/simulator.py:1668-1695 | End to end: if the chain of an action restores, the full capture compares as a match with the fold over all actions up to it exactly when that fold and the restored tree keep the same paths |
| ChainRefinement.ForcedSyncVerified | src/trace_collect/simulator.py:1668-1695 | In particular it does so when the manifests of the chain are plain and compatible among themselves |
| ChainRefinement.DeletedDirectoryDiverges | src/trace_collect/simulator.py:1780-1785 | A concrete manifest that restores without error and whose folded state the tree does not match |
| ChainRefinement.LinkedDeletionDiverges | src/trace_collect/simulator.py:1136-1145 | A concrete manifest that deletes a path below a link, meets every condition on the paths it names, restores without error, and removes a file the fold still holds |
| Listing.ReadListing | src/trace_collect/simulator.py:1323-1338 | Strips the text, splits it into lines and makes each a path below the root, passing over empty lines and names with .git |
| Listing.LegibleIsRead | src/trace_collect/simulator.py:1323-1338 | A list whose paths hold no line boundary and whose last one does not end in white space is read back as it was printed, but for what lies below .git |
| Listing.BrokenIsMissed | src/trace_collect/simulator.py:1323-1338 | A path with a line boundary in a name is never read back |
| Listing.TrailingSpaceIsMissed | src/trace_collect/simulator.py:1323-1338 | In a list without line boundaries the last path is not read back when it ends in white space |
| Listing.ListingExact | src/trace_collect/simulator.py:1323-1338 | The changed files all come through exactly when the list is legible, odd names below .git set aside |
| Snapshot.WalkTree | src/trace_collect/simulator.py:1343-1389 | The walk lists every file and link outside .git directories and reads anew the links and the changed files, or all when find failed |
| Snapshot.MergeDelta | src/trace_collect/simulator.py:1481-1488 | The host's merge: the update wins, and what the walk did not list is dropped |
| Snapshot.CaptureIncremental | src/trace_collect/simulator.py:1311-1488 | Listing, walk and merge together are the incremental capture, and a full capture when find failed |
| Snapshot.CaptureExact | src/trace_collect/simulator.py:1282-1492 | An incremental capture equals a full one exactly when the cached manifest is right for every file that was not listed |
| Snapshot.LegibleListsChanges | src/trace_collect/simulator.py:1323-1338 | A legible list names exactly the files newer than the marker |
| Snapshot.IllegibleMissesChanges | src/trace_collect/simulator.py:1323-1338 | A list falls short of the changed files exactly when it is not legible, odd names below .git set aside |
| Snapshot.BoundaryExact | src/trace_collect/simulator.py:4828-4856 | A capture of a sound session is a full one exactly when each changed file the list misses is cached as it is |
| Snapshot.StepKeepsSession | src/trace_collect/simulator.py:4828-5124 | Tool steps, captures, forced syncs, re-applied actions and verifications keep the cache right or drop it |
| Snapshot.SessionIsCoherent | src/trace_collect/simulator.py:4828-5124 | Over a whole session from an empty cache, every capture whose list is legible returns what a full walk would |
| Snapshot.BoundaryTellsTheTruth | src/trace_collect/simulator.py:4828-4856 | At any boundary of a session the comparison reports a mismatch exactly when the live tree does not hold the source's state |
| Snapshot.ReplaySession.CaptureBoundary | src/trace_collect/simulator.py:4833-4856 | The capture at a boundary moves the marker, replaces the cache and returns a full capture; one that fails changes nothing |
| Snapshot.ReplaySession.Verify | src/trace_collect/simulator.py:5078-5124 | A verification replaces the cache by a full capture, and drops it when there is none |
| Snapshot.ReplaySession.ForceSync | src/trace_collect/simulator.py:4955-5124 | A forced sync drops the cache only when the restore reports success, then re-applies or verifies |
| Snapshot.OneStepExact | src/trace_collect/simulator.py:1323-1388 | After a capture one tool step is seen in full exactly when every file that is not listed after it was captured with the same record |
| Snapshot.ModeChangeIsMissed | src/trace_collect/simulator.py:1323-1338 | For every tree, every file not newer than the marker and every other mode, a change of mode alone makes the next incremental capture wrong |
| Snapshot.BrokenNameIsMissed | src/trace_collect/simulator.py:1323-1338 | A new file with a line boundary in its path is missed by the next capture, whatever else is listed |
| Snapshot.TrailingNameIsMissed | src/trace_collect/simulator.py:1323-1338 | A new file whose name ends in white space is missed when it is the only one listed |
| Snapshot.FailedRestoreIsMissed | src/trace_collect/simulator.py:4989-4990 | A chain that fails at its second manifest leaves a session whose next capture is wrong |
| CasPrune.ReferencedDigests | scripts/prune_checkpoint_cas.py:40-74 | Collects the digests of all manifests, from entries of any type, and stops at the first invalid manifest or entry |
| CasPrune.ScanMeans | scripts/prune_checkpoint_cas.py:40-74 | The scan fails exactly on a file that cannot be read or holds an entry that is no text and no object; otherwise it collects just the digests some entry names |
| CasPrune.BlobStore.Prune | scripts/prune_checkpoint_cas.py:85-110 | Unlinks exactly the unreferenced blobs; a dry run changes nothing and reports the same three counts |
| CasPrune.PruneIsInvisible | scripts/prune_checkpoint_cas.py:55-110 | After a prune every chain of scanned manifests restores to the same tree and fails where it failed before |
| CasPrune.PrunedIsReferenced | scripts/prune_checkpoint_cas.py:85-110 | What is left is referenced, and pruning again changes nothing |
| CasPrune.BytesAddUp | scripts/prune_checkpoint_cas.py:85-110 | The bytes freed and the bytes that stay are the bytes there were |
| ResourceTimeline.Recorder.AppendCurrentDelta | src/trace_collect/resource_timeline.py:279-301 | After any readings the recorder holds exactly the samples of those readings |
| ResourceTimeline.TimeIsConserved | src/trace_collect/resource_timeline.py:192-301 | The recorded intervals and those that yielded no sample add up to the elapsed time |
| ResourceTimeline.RecordedTime | src/trace_collect/resource_timeline.py:192-301 | On a clock that never runs back the recorded intervals fill the elapsed time exactly when no interval that took time was lost |
| ResourceTimeline.ValidTimeline | src/trace_collect/resource_timeline.py:331-355 | A stored value is a valid timeline exactly when it is an object of version 1 with a list in which some sample has positive length and a usable counter |
| Watchdog.BuildSamples | src/trace_collect/openclaw_tools.py:227-253 | The loop with its running offset builds the source samples |
| Watchdog.SourceIsContiguous | src/trace_collect/openclaw_tools.py:227-253 | Rebuilt samples cover the time from zero to their end without gap or overlap |
| Watchdog.SampleIsItsInterval | src/trace_collect/openclaw_tools.py:227-253 | A sample is as long as its interval, and each rate over that length gives back what was recorded, or nothing when that is missing or negative |
| Watchdog.IndexHolds | src/trace_collect/openclaw_tools.py:256-262 | Before the end of the source, the sample found is the one that holds the time |
| Watchdog.Watch | src/trace_collect/openclaw_tools.py:376-462 | The polling loop ends at the first poll that times out or stalls, timeout first, or when the process exits; a run that stalls has stood still for five seconds and for the timeout or a minute while the source used a twentieth of a core or a kilobyte a second, and no run goes on that has |
| Watchdog.StallsMeans | src/trace_collect/openclaw_tools.py:381-449 | The stall test is exactly that, in numbers, counted from the last poll that moved the clock by more than a microsecond |
| WatchdogRuns.StepStaysInSample | src/trace_collect/openclaw_tools.py:324-349 | A step never moves back and never leaves the sample it starts in |
| WatchdogRuns.StepMonotone | src/trace_collect/openclaw_tools.py:324-349 | With at least the time and the use, a run that is ahead stays ahead or level, even from a sample with other rates |
| WatchdogRuns.ClockMonotone | src/trace_collect/openclaw_tools.py:396-462 | A run that takes at least the time and the resources of another, poll by poll, is never behind it on the virtual clock |
| WatchdogRuns.ClampIsNeeded | src/trace_collect/openclaw_tools.py:349-349 | Without the clamp at the end of a sample a run that is ahead can fall behind on the same use |
| WatchdogRuns.StepWithinUse | src/trace_collect/openclaw_tools.py:324-349 | A step asks no more of an active, readable resource than the poll consumed |
| WatchdogRuns.DemandBound | src/trace_collect/openclaw_tools.py:396-462 | Over any run the source's active demand integrated to the virtual time is at most what the replay consumed |
| WatchdogRuns.ConsumedIsDifference | src/trace_collect/openclaw_tools.py:316-321 | On counters that only grow, consumption is the difference of the first and last reading |
| WatchdogTermination.PollLowersRank | src/trace_collect/openclaw_tools.py:396-462 | Every poll that does not stop the run lowers a rank made of the timeout left, the stall polls left and the samples left |
| WatchdogTermination.WatchdogStops | src/trace_collect/openclaw_tools.py:376-462 | If polls take at least a fixed time above the progress epsilon, a command that does not exit is stopped within a bound given by timeout, epsilon, stall limit and number of samples |
| WatchdogTermination.RebuiltIntervals | src/trace_collect/openclaw_tools.py:227-253 | What the recorder stores and the watchdog rebuilds lies on the time line where it was recorded |
| WatchdogTermination.OffsetsAreEnds | src/trace_collect/resource_timeline.py:292-301 | The offset stored with a sample is the end of the stretch rebuilt from it |
| WatchdogTermination.ExactReplay | src/trace_collect/openclaw_tools.py:324-349 | A replay that repeats the recorded readings keeps the source's time exactly at every poll |
| WatchdogTermination.ReplayKeepsUp | src/trace_collect/openclaw_tools.py:324-349 | A replay that uses at least as much in at least the time is never behind the source |
| Scheduler.StepConserves | src/trace_collect/simulator.py:4004-4073 | No step makes, drops or doubles a session among queue, workers, statistics and losses |
| Scheduler.StepKeepsInv | src/trace_collect/simulator.py:4004-4073 | Workers leave only an empty queue or a failed call, sessions are taken in order, a session is lost exactly when the call will raise |
| Scheduler.RunKeepsInv | src/trace_collect/simulator.py:3994-4073 | Along every run there are min(concurrency, sessions) workers, each with at most one session in hand, and every session is in exactly one place |
| Scheduler.EachSessionOnce | src/trace_collect/simulator.py:3990-4093 | In every interleaving the call returns normally exactly when no session was lost, and then each session has exactly one statistic |
| Scheduler.NothingFailsIsServed | src/trace_collect/simulator.py:4004-4093 | A run in which no preparation, replay or finalisation fails ends with the call returning one statistic for each session, none of a failed preparation |
| Scheduler.SmoothRunExists | src/trace_collect/simulator.py:4004-4073 | Every queue has such a run |
| Scheduler.StatsTell | src/trace_collect/simulator.py:4018-4071 | At any point a statistic says that preparing failed exactly when it did, and that a session was replayed exactly when it was finished with its statistics |
| Scheduler.FirstErrorIsFirst | src/trace_collect/simulator.py:4058-4062 | The error that is kept is that of the first session that raised, and there is none exactly when no session did |
| Scheduler.NothingStartsAfterAnError | src/trace_collect/simulator.py:4006-4013 | After the first replay error no session is started, and that error is the one kept |
| Scheduler.RunsToTheEnd | src/trace_collect/simulator.py:4004-4073 | The queue can always go on until every worker is over |
| Scheduler.RunsAreBounded | src/trace_collect/simulator.py:4004-4073 | At most four steps a session and one more a worker |
| WorkerWaves.ResolvePrepConcurrency | src/trace_collect/simulator.py:2623-2629 | Refuses exactly a negative request or no sessions; otherwise the smaller of the sessions and the request, or of the default when none is made, and never zero |
| WorkerWaves.PartitionWorkerInputs | src/trace_collect/simulator.py:2632-2650 | Refuses exactly no workers or no inputs; otherwise min(workers, inputs) non-empty contiguous chunks in order, the longer first and by at most one |
| WorkerWaves.WavesKeepOrder | src/trace_collect/simulator.py:2653-2662 | Waves are non-empty, all but the last are full, and together they are the inputs in order |
| WorkerWaves.PlanKeepsOrder | src/trace_collect/simulator.py:4400-4480 | Wave by wave and chunk by chunk every input is visited once, in order |
| WorkerWaves.PermitsAreConserved | src/trace_collect/simulator.py:4096-4122 | Permits and sessions in preparation add up to the limit after any steps, also when preparation raises |
| WorkerWaves.LimiterNeverSticks | src/trace_collect/simulator.py:2704-2710 | A polling session finds a permit or some preparation can finish; when none is under way all permits are back |
| WorkerWaves.AllGetPrepared | src/trace_collect/simulator.py:2704-2710 | Where no step changes anything any more every session is prepared; at no time do more prepare than the limit |
| WorkerWaves.StepsAreFew | src/trace_collect/simulator.py:4096-4122 | Every step that changes anything leaves less to do |
| StartProtocol.EnabledCanStep | src/trace_collect/simulator.py:2677-2701 | Which workers can move: the barrier, the event and the end states are the only things that hold one up |
| StartProtocol.StepKeepsInv | src/trace_collect/simulator.py:2665-2701 | Every step of every worker, raising ones included, keeps the invariant that ties barrier, event and start time |
| StartProtocol.ZeroIsStable | src/trace_collect/simulator.py:2690-2694 | The shared start time is written at most once |
| StartProtocol.StartIsGlobal | src/trace_collect/simulator.py:4285-4291 | No worker starts before all have arrived, and any two that start do so from the same positive time zero |
| StartProtocol.WhoWaitsAtTheEnd | src/trace_collect/simulator.py:4320-4323 | When nothing can move, some worker waits exactly when one was lost while loading, none failed inside the guarded part, and not all were lost |
| StartProtocol.LostWorkerStrandsAnother | src/trace_collect/simulator.py:4185-4323 | A run of two workers that ends with one lost while loading and the other waiting at the barrier |
| StartProtocol.NobodyWaitsForever | src/trace_collect/simulator.py:4320-4323 | Runs have at most nine steps a worker; at their end, if someone failed inside the guarded part or nobody was lost, all have started, failed or been lost |
| StartProtocol.HealthyWaveStarts | src/trace_collect/simulator.py:2677-2701 | A run in which no worker raises, and which could go on only by raising, has every worker started from one positive time zero |
| StartProtocol.HealthyWaveExists | src/trace_collect/simulator.py:2677-2701 | There is such a run for every number of workers |
| StartProtocol.CalmRunFinishes | src/trace_collect/simulator.py:4285-4291 | Any run in which nothing has raised so far can be brought to the start of all workers |
| SourceGaps.RequestSleeps | src/trace_collect/simulator.py:4519-4561 | The requested sleep before each action times the speed is the gap to the latest effective end so far |
| SourceGaps.GapsAreDisjoint | src/trace_collect/simulator.py:3820-3829 | Each gap ends before the next begins |
| SourceGaps.GapsAreTheIdleTime | src/trace_collect/simulator.py:3820-3829 | The gaps are exactly the moments of the source's span that no action, excluded overhead included, covers |
| SourceGaps.SpanSplits | src/trace_collect/simulator.py:4544-4561 | The span is the sum of the gaps and of the time the frontier advances under an action |
| SourceGaps.SleepsAddUp | src/trace_collect/simulator.py:3820-3829 | Whatever the speed, the requested sleeps times the speed are the idle time |
| Regex.EndsAreTheMatches | src/trace_collect/output_normalize.py:5-26 | Backtracking over the expressions finds every match of their language and nothing else |
| Regex.MatchIsAMatch | src/trace_collect/output_normalize.py:5-26 | A match is found exactly when there is one |
| OutputNormalize.RegexShapes | src/trace_collect/output_normalize.py:5-26 | Each of the six patterns begins with a character that can stand in a path, and all but the temporary-path one need a digit |
| OutputNormalize.PassLeavesNoTmp | src/trace_collect/output_normalize.py:38-42 | The temporary-path pass leaves no temporary path, and no later pass makes one |
| OutputNormalize.NormalizedIsStable | src/trace_collect/output_normalize.py:29-42 | The result holds no digit and no /tmp/ followed by a path character, for every text |
| OutputNormalize.FixedIffStable | src/trace_collect/output_normalize.py:29-42 | Normalising changes exactly the texts that hold one of these |
| OutputNormalize.NormalizeIsIdempotent | src/trace_collect/output_normalize.py:29-42 | A second application changes nothing, for every text |
| OutputPatterns.PatternsMean | src/trace_collect/output_normalize.py:5-26 | Each of the six expressions matches exactly the stretches it stands for: dates with clock, fraction and zone, epoch times, process and temporary paths, hexadecimal addresses, runs of digits |
| OutputPatterns.MatchesAreLongest | src/trace_collect/output_normalize.py:18-26 | A temporary path and a run of digits are matched whole |
| OutputPatterns.EachKindIsMarked | src/trace_collect/output_normalize.py:29-42 | No pass is spoilt by an earlier one: a text of each kind, though it holds digits, becomes the marker of its kind |
| ReplayIds.DecimalIsInjective | src/trace_collect/simulator.py:2583-2587 | Different numbers have different decimal suffixes |
| ReplayIds.PaddedIsTheNumber | src/trace_collect/simulator.py:2575-2582 | A padded suffix stands for its number and is longer than the width only when it must be |
| ReplayIds.FreeName | src/trace_collect/simulator.py:2576-2587 | The search ends and finds the first name of its list that is not taken |
| ReplayIds.CountSources | src/trace_collect/simulator.py:2561-2565 | Counts how many sessions share each source |
| ReplayIds.AssignReplayInstanceIds | src/trace_collect/simulator.py:2560-2590 | A lone source keeps its name; every other session gets the first free name for its occurrence |
| ReplayIds.IdsAreDistinct | src/trace_collect/simulator.py:2560-2590 | The ids are pairwise distinct |
| ReplayIds.ReplicasAvoidSources | src/trace_collect/simulator.py:2567-2590 | An id is some source's name exactly when its session has that source to itself |
| PosixPath.NormPathIsIdempotent | src/agents/sandbox_runtime.py:367-374 | Normalising a path twice is normalising it once, for every text |
| PosixPath.OneMorePart | src/agents/sandbox_runtime.py:367-374 | What one more part does to a normalised path: empty and dot parts nothing, a name is added, a parent part takes a name away, is dropped at a root and kept in front otherwise |
| PosixPath.ParentUndoes | src/agents/sandbox_runtime.py:367-374 | A name and the parent part after it cancel out |
| FakeBackend.NormalizedIsStored | src/agents/sandbox_runtime.py:367-374 | A path that is accepted is normal and is the root or below it |
| FakeBackend.RelpathRoundTrip | src/agents/sandbox_runtime.py:367-379 | The relative form of a stored path leads back to it exactly unless root and path are both only slashes |
| FakeBackend.SingleEdit | src/agents/sandbox_runtime.py:318-346 | With one occurrence the edit replaces that stretch and nothing else, and replacing all is the same |
| FakeBackend.ListingIsComplete | src/agents/sandbox_runtime.py:348-360 | A name is listed exactly when some stored path continues the directory with it |
| FakeBackend.ReadsBackWhatWasWritten | src/agents/sandbox_runtime.py:290-316 | What is written is read back under every name of the path, with an mtime above all before, and no other file changes; a path outside the root changes nothing |
| FakeBackend.EditIsAWrite | src/agents/sandbox_runtime.py:318-346 | An edit is the write of the edited text exactly when the old text occurs once, or at all when every occurrence is to go, and fails without effect otherwise |
| FakeBackend.ProbeIsExact | src/agents/sandbox_runtime.py:258-259 | After any requests since a snapshot the probe reports a change exactly when some write succeeded; otherwise files, mtimes and clock are as they were |
| FakeBackend.RoundTripIffPortable | src/agents/sandbox_runtime.py:210-256 | Restoring a captured store into any other gives back files, mtimes and clock, exactly unless root and some file's path are only slashes |
| FakeBackend.LoadSucceeds | src/agents/sandbox_runtime.py:232-256 | A snapshot loads exactly when every entry has a text path inside the root, text content and an mtime that is absent or a number |
| FakeBackend.LastWordHolds | src/agents/sandbox_runtime.py:232-256 | The last entry about a path decides its content and mtime; an entry without an mtime is as old as the snapshot |
| FakeBackend.RootFileIsLost | src/agents/sandbox_runtime.py:210-256 | A store at / whose only file is / itself comes back from its snapshot in no other store |
| FakeBackend.Backend.Execute | src/agents/sandbox_runtime.py:182-365 | Each request changes the store and answers as specified, raising ones included |
| FakeBackend.Backend.CaptureSnapshot | src/agents/sandbox_runtime.py:210-230 | One entry for each file and the clock |
| FakeBackend.Backend.RestoreSnapshot | src/agents/sandbox_runtime.py:232-256 | A snapshot that is refused changes nothing; any other replaces files, mtimes and clock |
| RetryLoop.StripImageContent | src/llm_call/provider_base.py:220-243 | Returns nothing exactly when there is no image; otherwise turns each image block, and nothing else, into its placeholder |
| RetryLoop.SleepWithHeartbeat | src/llm_call/provider_base.py:397-415 | The chunks add up to the delay, none is longer than the heartbeat, all but the last are full |
| RetryLoop.RunWithRetry | src/llm_call/provider_base.py:417-489 | The loop waits after, and returns, strips or gives up at, exactly the responses the rules say |
| RetryLoop.RunIsExact | src/llm_call/provider_base.py:417-489 | A run waits, for as long as asked or as the table says, after exactly the transient errors that are neither the seventh of a standard run nor the end of ten identical ones of a persistent run; the first other response ends it, after one more call without images when that applies |
| RetryLoop.IdenticalIsLongest | src/llm_call/provider_base.py:438-443 | The counter of identical errors is the length of the longest suffix of errors with one non-empty key |
| RetryLoop.StandardMakesAtMostEightCalls | src/llm_call/provider_base.py:426-489 | Standard mode waits at most six times and makes at most eight calls, at most one of them without images |
| RetryLoop.PersistentWaitsAreShort | src/llm_call/provider_base.py:470-473 | Persistent mode never waits more than a minute |
| RetryLoop.WaitsDouble | src/llm_call/provider_base.py:470-473 | Unless the server asks otherwise the waits double from one second six times and then stay |
| RetryLoop.StandardWaitsAMinute | src/llm_call/provider_base.py:426-489 | A standard run that the server does not slow down waits 63 seconds at most in all |
| RetryLoop.PersistentStopsAtTenIdentical | src/llm_call/provider_base.py:456-465 | Ten errors in a row with one key end a persistent run |
| RetryLoop.PersistentStopsOnlyForAReason | src/llm_call/provider_base.py:432-468 | A persistent run returns only a success, an error that is not transient, or the end of ten identical ones |
| RetryLoop.StrippedCallIsLast | src/llm_call/provider_base.py:445-454 | The call without images follows an error that is not transient, on messages with images, and is the last |
| ContainerAgent.Agent.Execute | src/trace_collect/openclaw_tools.py:850-913 | In every environment the call does what is due with the answers the environment gives; a tool that is not idempotent is written at most once, the others at most twice, each time to a process of its own; it raises exactly when its last event escapes, has otherwise written the request, and the last events determine each reply |
| ContainerAgent.TraceIsDetermined | src/trace_collect/openclaw_tools.py:850-913 | What a call does is settled by the environment, the tool and whether a process was held |
| ContainerAgent.RaisesExactly | src/trace_collect/openclaw_tools.py:850-913 | A call raises exactly when, at a moment it reaches, the environment fails a restart, gives an over-long line, or resets the connection while lines are skipped |
| ContainerAgent.ReturnsInAGoodWorld | src/trace_collect/openclaw_tools.py:850-913 | Where restarts succeed, no line is too long and no reset follows a stray line, every call returns with its request written |
| ContainerAgent.GoodCallIsAnswered | src/trace_collect/openclaw_tools.py:850-913 | A running process that answers with valid JSON is asked once and its answer is returned |
| ContainerAgent.CrashIsRetried | src/trace_collect/openclaw_tools.py:890-896 | A process that dies on a request is replaced; read_file and list_dir are then asked again and answered, every other tool is reported as crashed |
| ContainerAgent.OverlongLineRaises | src/trace_collect/openclaw_tools.py:880-888 | In a world where every restart succeeds and every line is too long, each call to a running agent raises |
| ContainerAgent.ResetWhileSkippingRaises | src/trace_collect/openclaw_tools.py:880-903 | So it does in a world where every restart succeeds and the connection is reset after one stray line |
| ContainerAgent.NoProcessIsAskedTwice | src/trace_collect/openclaw_tools.py:850-913 | Between two writes of a call a restart succeeded, so no process gets the request twice |
| ContainerAgent.EscapedMeansSome | src/trace_collect/openclaw_tools.py:880-903 | An exception escapes exactly when a restart failed, a line was too long, or the connection was reset while lines were skipped |
| TraceMerge.CombineWorkerTraces | src/trace_collect/simulator.py:5519-5545 | Refuses exactly a missing or unreadable worker file and names the first such; otherwise the sorted result holds each record that is no header as often as the lines of the files do |
| TraceMerge.SortAscends | src/trace_collect/simulator.py:5543-5557 | The combined trace is in ascending order of time, class and sequence number |
| TraceMerge.OrderIsUnique | src/trace_collect/simulator.py:5548-5557 | There is only one way to put the records in that order |
| TraceMerge.MergeIsPermutation | src/trace_collect/simulator.py:5519-5545 | The combined trace loses, doubles and invents nothing |
| TraceMerge.CombinedCounts | src/trace_collect/simulator.py:5522-5541 | Collecting and sorting keep every line that holds a record other than a header, and nothing else |
| TraceMerge.SplitTraceByAgent | src/trace_collect/simulator.py:5381-5447 | Each known agent's file is its records in the order of the trace, under the last header of the trace, if it has one |
| TraceMerge.SplitLosesNothing | src/trace_collect/simulator.py:5381-5447 | After merging and splitting each agent has exactly its own records |
| TraceMerge.FilesComeThrough | src/trace_collect/simulator.py:5381-5447 | From the workers' files to the agent's: each agent's file holds each of its own records as often as the workers' files do, and no header |
| TraceMerge.SplitGivesBackTheTrace | src/trace_collect/simulator.py:5381-5447 | Merging and splitting keep an agent's records in the order it wrote them exactly when that was key order |
| TraceMerge.SummaryComesLast | src/trace_collect/simulator.py:5548-5557 | A summary without a time follows every action and event of the combined trace |
| TraceMerge.UntimedEventComesEarly | src/trace_collect/simulator.py:5548-5564 | An event without a time comes before all that happens after time zero |
| TraceMerge.TiesGoByClass | src/trace_collect/simulator.py:5548-5557 | At one time, actions come before events, events before summaries, summaries before the rest |
| TraceMerge.TiesKeepTheirOrder | src/trace_collect/simulator.py:5522-5557 | Records of one time and class keep the order in which they were collected |

## Left out

- Containers, subprocesses, HTTP, asyncio and real file input and output appear as the abstract tree, counters, barrier, event, semaphore and environment answers.
- Floating point: times and counters are reals, without rounding to six digits and without infinities or NaN.
- SHA-256, JSON and YAML parsing: digests are opaque and manifests are already parsed; hash values, paths and deleted lists of the wrong JSON type, and booleans given as numbers, are not modelled.
- Checkpoint archives (tar) and checkpoints for a root other than /testbed.
- Restore.LiveTree.DeletePaths: where a link leads outside the root, every name there is taken for a directory, and a deletion outside is taken to succeed.
- Restore.LiveTree.RestoreManifest: sets one time for all files recorded without an mtime, and assumes that setting an mtime succeeds and that the file system has room and permissions.
- Snapshot.SessionIsCoherent: assumes what the code relies on and cannot check: a tool that changes what a file holds gives it an mtime above the marker (so no chmod alone and no rename that keeps an old mtime), a failed restore changes nothing the mtimes do not tell, the printed list is legible, a capture that returns nothing did not move the marker, every listed file can be hashed, and tools and manifests make no file or link named .git. What happens without the first three is shown by ModeChangeIsMissed, FailedRestoreIsMissed and BrokenNameIsMissed.
- Snapshot.WalkTree: a link named .git that leads to a directory.
- Listing.ReadListing: names that are not valid text, and errors of `find` other than failing as a whole.
- Watchdog.Watch: killing the process group, output formatting, and the choice between this policy and the plain timeout.
- StartProtocol.NobodyWaitsForever: workers that are killed or cancelled, and managers that die while a worker waits on the barrier or the event; the code gives no guarantee there. All-or-none start is not claimed: a late failure leaves some workers started and others failed.
- Scheduler.EachSessionOnce: cancellation of a worker task. A worker whose finalisation raises ends itself, while the others go on taking sessions; the call still raises.
- WorkerWaves.PermitsAreConserved: a session cancelled between acquiring a permit and entering the guarded part.
- Regex.EndsAreTheMatches: covers the constructs these six expressions use, with digits, word characters and white space beyond ASCII as a parameter that must treat digits as word characters and not as white space.
- RetryLoop.RunWithRetry: takes the lower-case key, the transient markers and the requested delay of each error as given; parsing them out of the message is not modelled, nor are log lines and the heartbeat's text.
- FakeBackend.Backend.CaptureSnapshot: entries come in any order where the source sorts them, and the digest and size it also stores are not read back and are left out.
- FakeBackend.Backend.Execute: answers carry the facts (content, names, return code, counter), not their wording or line numbers.
- ContainerAgent.Agent.Execute: that a response belongs to the current request is not claimed; a timeout while stray lines are skipped returns without a restart.
- TraceMerge.SplitTraceByAgent: the fields of the header that each task writes over with those of its own session.
- WalkBackend, OverlayBackend and DockerBackend captures: they rest on a session runner and container checkpoints that are not part of this model.
- Mismatch classification, monitoring policy, command classifiers, manifest and command-line validation, report printing, figures, provider adapters: flat branching or plumbing that would only add easy members.
