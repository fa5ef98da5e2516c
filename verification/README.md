# Verified model of the FinOps agent's sample pipeline

The agent takes snapshots of a Kubernetes cluster, keeps bounded caches of windowed metrics for
queries, writes samples to a scratch directory, packs them into tars and uploads them. This project
models the parts of it that carry state, loops and arithmetic, and proves what they promise, over
every run, every interleaving and every point of failure that the model has.

Run `dafny verify dfyconfig.toml` to check everything.

## The modules

**From sample to storage service.** `UploadPipeline` is a state machine over the disk (scratch
directories and tars, each complete or not), the uploader's memory (sample set, upload queue, payload
under way) and a log of what each service accepted. Its steps are single disk or set operations of the
emitter goroutine, the upload goroutine and start-up, and a crash can fall between any two.
`CldyUploader` is the uploader object; each of its operations appends its step to a ghost run, so that
its methods are proved to follow the state machine and inherit what is proved about runs. What the disk,
the clock and the services do is an input of these methods (`Disk`, `World`), so that they also say when
an operation succeeds. `UploadQueue` is the concurrent set with its drain pass, `UploadPass` what a pass
does with each payload, `StorageServices` the double-checked lock that
builds the services, `RecoveryWalk` the one-pass walk that recovers samples at start-up, and
`RecoveryOrders` says when that walk packs a complete directory in every order of its map. `StartUp`
lets the walk decide what the uploader packs and deletes when it starts. `SampleEmitter` is the writing
and rotation of sample directories, `EmissionSchedule` the decision whether to emit, `Framing` the
encoding of object files. `EmitterFiles` has the names of a sample's files and the required names they
contain, `SampleRecovery` what becomes of the emitter's samples in the recovery walk. `SafePaths` and
`TarNames` are about the names that tie these together: set keys, tar names, upload keys.

**Windowed metrics.** `SnapshotWindows` decides which aligned windows to query, `MetricsRetention` is
the cache that keeps the two newest of a resolution, `MetricsExport` joins both in the export loop and
proves that after any run the bounded caches agree with the whole history. `Instants` holds the
truncation arithmetic.

**Smaller pieces.** `NodePolling` is the goroutine, channel, mutex and wait-group protocol of node
collection. `ResourcePruning` removes fields from nested trees by path, `ResourceCleaning` is the
transform with its tables, in place. `ImageRefs` is the image-reference parser. `Strings`, `Substrings`,
`Collections` and `Wrappers` are shared helpers.

## What turned out not to hold

Each of these is kept as the code has it, with the exact condition or a concrete case proved.

- A failed snapshot at a window boundary loses the window's closing query, because the time of the last
  snapshot moves on all the same (`FinalDataIffClosingSucceeds`, `FailureLosesAWindow`).
- The eviction loop spins while more than two window starts lie after the clock: with a clock that never
  steps back it ends if and only if some reading leaves at most two, so always if the clock goes on
  (`EvictionEnds`, `AdvancingClockEnds`).
- A second payload in the same second overwrites the first, which loses samples exactly if the first
  was complete, still waiting, and the last copy (`ReuseLosesExactly`, `SameSecondLoses`).
- A queue entry that another goroutine adds again during a pass is dropped if the pass ships it
  (`ReAddedEntriesAreLost`).
- Recovery works on sample directories right below the scratch root. The emitter puts them below a
  directory named by the cluster ID, and then recovery deletes all of them and reports no error
  (`NestedTreeFails`, `NestedLayoutRecoversNothing`, `RecoverNested`); so the layout is flat only for an
  empty cluster ID. In general the error of a failed walk is reported if and only if the last directory
  was packed (`Recovery.RecoverCompleteSamples`).
- A file taken for an agent measurement ends the walk in its middle if and only if it cannot be read as
  one, or comes up when its directory has been packed and is gone (`WalkEndsExactly`). So a crash between
  creating and writing the agent's file costs that directory, keeps later samples from being recovered,
  and is reported only if the directory had been packed by then (`FlatTreeWalked`,
  `HalfWrittenAgentStops`).
- Recovery matches required names anywhere in a path, and a file accounts for one of them only. A
  complete sample is recovered in every order of the map if and only if the path of its directory contains
  no required name and its baseline nodes cannot each be given a kind of object that their name contains.
  Below "/data/nodes" any sample may be lost, and one of a cluster with a single node called "nodes-1"
  (`RecoveredInEveryOrder`, `NodesOneIsMissed`). An incomplete one is never packed
  (`PackedSamplesAreComplete`).
- A failed emission leaves statistics of nodes that the next snapshot may not have; exactly these have no
  baseline in the sample after (`ChainIsWhole`, `FailedTickLeavesNode`). Once disk pressure clears the
  current directory, no emission succeeds until a restart (`NoDirectoryNoEmission`). The exporter goes on
  with an emitter whose initialisation failed, and then the first two samples have no baseline
  (`Without`).
- Emissions run ahead of elapsed intervals by the part of one that the buffer leaves off
  (`EarliestEmission`).
- Without pollers node collection blocks as soon as there is a node (`ReturnsExactly`).
- `SafePath` is not idempotent on the root, `/` becoming `//` (`IdempotentUnlessRoot`, `RootOfDots`). Its
  keys are those of `filepath.Join` if and only if the directory is not empty and deleting its dots comes
  to the same as resolving them, which holds without two dots in a row and also for `/..`, but not for
  `a/..` (`UploadKeysAgree`, `SampleKeysAgree`, `DirectoriesThatAgree`, `EmptyDirectoryDisagrees`,
  `DotsDisagree`).
- `generateSampleKey` checks for five segments and indexes the sixth from the end: the upload of a tar
  panics if and only if its cluster ID has an underscore with exactly five segments behind it
  (`PanicsExactly`). With an underscore the time is not looked at (`UnderscoreHidesTime`), and keys leave
  out the second, so that tars of one minute share a key (`KeysByMinute`).
- A recovered sample's tar is named in the local zone and read back as UTC: the time is off by the zone's
  offset, and with it the verdict on its age if that is near the recovery period (`ZoneRoundTrip`,
  `ZoneMovesExpiry`).
- A record of 4 GiB or more cannot be told from shorter ones (`DecodeExactly`, `LongRecordReadsAsOthers`).
- One annotation that does not read as a string costs a resource all its annotations
  (`OddAnnotationRemovesAll`). The sanitising tables name the kinds "Daemonset" and "Cronjob", which no
  object has (`DaemonSetKeepsStrategy`, `MisspeltKinds`). The comment at pkg/cluster/dynamic.go:254 counts
  replication controllers among the cleaned kinds; the condition at line 221 does not, and the model
  follows it.

## Model

| member | source | states |
|---|---|---|
| UploadPipeline.InvKept | cldy/uploader.go:461-527 | every operation of the emitter, the upload loop and start-up keeps the disk, the sets and the payload under way consistent |
| UploadPipeline.OnlyGivenUp | cldy/uploader.go:461-568 | one operation makes a sample unsafe only if it is a documented clean-up of that sample, or reuses a payload name |
| UploadPipeline.NoSilentLoss | cldy/uploader.go:461-568 | in every run with crashes and restarts, a sample handed over is in scratch, in a complete tar, or with every service, or it has been lost for good at a step that gave it up: an explicit clean-up, start-up not recognising it, or a reused payload name |
| UploadPipeline.ReadRunSparesComplete | cldy/uploader.go:224-292 | while start-up discards no complete sample as unread, it gives up none |
| UploadPipeline.CompleteIsSpared | cldy/uploader.go:253-304 | a complete sample directory that no step discards as unread stays safe, until a step other than start-up's treatment of directories gives it up |
| UploadPipeline.GoneIsHeldAsPayload | cldy/uploader.go:461-568 | once packed and gone from scratch, a sample is given up only with its payload: cleared, expired or overwritten |
| UploadPipeline.ReuseLosesExactly | cldy/uploader.go:472-483 | creating a payload loses something if and only if a complete payload of that name waits with a last copy |
| UploadPipeline.NoneLostToReuse | cldy/uploader.go:472-483 | while no tar is created over a file that is there, no sample is lost to a reused name |
| UploadPipeline.SameSecondLoses | cldy/uploader.go:472-483 | a run in which a payload waits with a complete sample, a second sample is handed over, and building its payload in the same second loses the first one |
| UploadPipeline.EntriesExist | cldy/uploader.go:516-527 | what the sample set names is on disk at every step of every run, unless the emitter's clean-up removed it |
| UploadPipeline.QueueAlwaysSound | cldy/uploader.go:436-458 | with fresh payload names a queued tar on disk is complete, at every step of every run |
| UploadPipeline.HandedOverExactly | cldy/uploader.go:194-196 | the samples handed over are exactly those that the emitter has added |
| UploadPipeline.StaysInSet | cldy/uploader.go:194-200 | what is added to the sample set, by the emitter or by start-up, is in it until it is taken out or the process dies |
| UploadPipeline.StaysQueued | cldy/uploader.go:452-453 | so is a tar in the upload queue, until it is taken out, cleared, or the process dies |
| UploadPipeline.PayloadsHoldPacked | cldy/uploader.go:573-646 | what a tar holds was intact when it was written to that tar |
| UploadPipeline.AcceptedExactly | cldy/uploader.go:559-564 | a service has a sample if and only if it accepted a complete tar that held it |
| CldyUploader.Uploader.ConstructPayload | cldy/uploader.go:461-514 | without a failing operation and with room it succeeds exactly if every entry of the set is on disk, unless the emitter clears one meanwhile; then the tar is complete and holds every intact sample of the set that was not cleared, and the set and scratch are rid of them; without room the tar and the samples are given up; on an error nothing is queued, and no other tar is touched but old ones cleared for room |
| CldyUploader.Uploader.MakeRoom | cldy/uploader.go:576-588 | only if the disk is short are tars cleared, those older than half the recovery period and no others, and the archive is given up exactly if there is still no room |
| CldyUploader.Uploader.CreateTGZ | cldy/uploader.go:573-646 | an archive is reported written only when it is closed and everything intact is in it; a full disk leaves it open for its caller, any other failure ends it |
| CldyUploader.Uploader.RemoveSamples | cldy/uploader.go:516-527 | success means that all packed samples are gone from the set and from disk; a failure stops, and nothing else is touched |
| CldyUploader.Uploader.UploadData | cldy/uploader.go:532-568 | a tar is shipped exactly if there are services, it can be read, every one of them accepts it and it can be removed; it leaves the disk only then; with no service it is kept and that error is returned, and only then |
| CldyUploader.Uploader.DrainUploads | cldy/uploader.go:407-434 | one drain is one pass of the queue by the clock it is given, with half an upload cycle as budget: each attempt succeeds exactly if UploadData does, only the lack of services abandons the pass, and an entry leaves exactly if its attempt succeeds, its tar off the disk and with every service |
| UploadPass.Drain.ReachedIsShipped | cldy/uploader.go:407-434 | a queued tar that the pass reaches, with services there and all of them accepting it, is off the disk and the queue, and delivered |
| UploadPass.Drain.OnlyBudgetEndsIt | cldy/uploader.go:421-434 | with services there, entries stay untried only if the budget is spent |
| UploadPass.Drain.NoneStarves | cldy/uploader.go:421-434 | within its budget a pass leaves in the queue exactly the tars on disk that cannot be shipped: one bad tar holds up no other |
| UploadPass.Drain.NoServicesNoPass | cldy/uploader.go:421-434 | without services one entry at most is tried and nothing changes |
| CldyUploader.Uploader.UploadTick | cldy/uploader.go:436-458 | a tick builds a tar unless the set is empty or building fails; then the tar, with every intact sample of the set, is queued with what waits and one drain is made from that state; a tick that builds none queues and uploads nothing, and none is built while an entry of the set has no directory |
| CldyUploader.Uploader.TickForwards | cldy/uploader.go:436-458 | after a tick that built a tar each of these samples is in it and queued, or accepted by every service, or cleared by the emitter |
| CldyUploader.Uploader.ClearOldUploadSamples | cldy/uploader.go:648-677 | only tars older than half the recovery period go, each together with its queue entry, and all of them if no operation fails |
| CldyUploader.Uploader.Restart | cldy/uploader.go:58-94 | a crash loses the memory and keeps the disk |
| CldyUploader.Uploader.RecoverUploadFiles | cldy/uploader.go:331-362 | the walk comes through exactly if every name parses, unless a removal fails; then queue and directory hold exactly the unexpired complete tars; however it ends none of those is removed |
| CldyUploader.Uploader.RecoverCompleteSamples | cldy/uploader.go:253-304 | given the walk's verdicts on the directories it gets as far as: those handled are gone from scratch and those behind are as they were, however the pass ends it has discarded no complete sample of a good verdict, and an intact one that is handled is safe or has been given up since with its payload; if the names of the tars are different and free, none is written over and each such sample is in the tar of its own name, unless that was old enough to be cleared for room |
| StartUp.RecoverFlat | cldy/uploader.go:224-304 | with the walk itself, on any flat scratch tree and in any order of its map: what it packs is safe, what it does not come to stays, and however start-up ends it deletes no complete sample, if none can be missed, but that of the directory in which the walk stops; if it comes through, an error is returned exactly if the walk stops in a directory it has packed; if no two samples are of one second, each is in the tar named by the time of its own agent measurement, and none is written over |
| StartUp.VerdictHasTimes | cldy/uploader.go:242-258 | the time that names a recovered tar is that of the sample's own agent measurement |
| StartUp.Naming.NamesOfSeconds | cldy/uploader.go:472-479 | two tars of a cluster share a name exactly if the wall clock shows the same second |
| StartUp.RecoverUploads | cldy/uploader.go:331-362 | by the times in their names, start-up keeps and queues exactly the complete unexpired tars |
| StartUp.RecoverNested | cldy/uploader.go:224-292 | with samples below a cluster's directory start-up packs nothing and deletes all, and an error is returned exactly if something is left after two attempts |
| StartUp.VerdictIsExact | cldy/uploader.go:240-261 | with names that hide nothing, the walk's verdict on an intact directory is completeness before the directory in which it stops; of that one it is whether nothing is needed by then, and behind it there is none |
| StartUp.VerdictAt | cldy/uploader.go:224-304 | on any flat tree, a directory is packed if and only if the walk gets as far as it and nothing is needed any more when it leaves it |
| StartUp.Start | cldy/uploader.go:82-94 | after start-up the queue holds only complete unexpired tars, all of them if the walk over them came through, the emitter runs whatever errors there were, and of the complete samples what RecoverFlat says still holds |
| CldyUploader.Uploader.RecoverDirectory | cldy/uploader.go:253-304 | by the verdict given, a directory becomes a complete payload or is deleted, in two attempts unless it is the last, and other directories stay |
| CldyUploader.Uploader.EverySampleIsAccountedFor | cldy/uploader.go:461-568 | the uploader object: every sample ever handed over is safe, or lost for good at a named step that gave it up |
| UploadQueue.DrainBudget | cldy/uploader.go:410-419 | half an upload cycle to the nanosecond, and no bound exactly for a cycle of less than two |
| UploadQueue.StringSet.OperateAndRemove | cldy/util.go:74-110 | for every order, outcome and clock: the attempted entries are the prefix that budget and abandonment allow, the errors are the failed ones in order, and the set loses exactly what succeeded |
| UploadQueue.Pass.FullPass | cldy/util.go:89-104 | without a spent budget and without an abandoning error every entry is attempted |
| UploadQueue.Pass.AttemptsUnique | cldy/util.go:89-104 | outcomes and clock determine how far a pass gets |
| UploadQueue.Pass.PassDuration | cldy/util.go:82-105 | from setting the deadline to leaving the loop a pass takes less than its budget and its last upload |
| UploadQueue.Pass.AttemptBound | cldy/util.go:82-93 | uploads of a least cost bound the attempts by budget over cost, rounded up, whatever the queue holds |
| UploadQueue.ReAddedEntriesAreLost | cldy/util.go:106-108 | what a pass leaves is the old set minus what it shipped plus concurrent additions if and only if nobody adds an entry that the pass ships |
| UploadQueue.AttemptsSplit | cldy/util.go:94-109 | the attempted entries are those that succeeded and those among the joined errors |
| UploadQueue.AttemptsAddUp | cldy/util.go:94-109 | each counts once, as one or the other |
| UploadQueue.PassOfOutcomes | cldy/util.go:89-105 | the loop's outcomes are the attempts of a pass, to which all of this applies |
| StorageServices.BuildsNeverOverlap | cldy/uploader.go:162-192 | in no interleaving do two callers build at once, nor does anyone read meanwhile |
| StorageServices.NeverRebuilt | cldy/uploader.go:163-175 | services once built are there for good |
| StorageServices.BuildsAreBounded | cldy/uploader.go:176-188 | a retry starts a full cooldown after the end of the build before, so a time span holds at most one build more than cooldowns fit into it |
| StorageServices.InvKept | cldy/uploader.go:162-192 | every lock, check and build step keeps the lock exclusive and the builds spaced |
| StorageServices.ChecksStartBuilds | cldy/uploader.go:173-188 | a check under the lock starts a build if and only if nothing has been built yet and a cooldown has passed since the last build ended, if there was one |
| StorageServices.ReadersReturn | cldy/uploader.go:163-169 | the first check ends the call exactly if there are services |
| StorageServices.CallsGoOn | cldy/uploader.go:162-192 | every step leads a call on, so that it ends after five |
| StorageServices.NoDeadlock | cldy/uploader.go:162-192 | whoever is inside, one of the callers inside can go on |
| RecoveryWalk.Recovery.Visit | cldy/uploader.go:230-283 | the callback does to the captured variables what the simple step function says |
| RecoveryWalk.Recovery.WalkDir | cldy/uploader.go:230-283 | walking one entry refines the recursive specification, where a directory that is gone ends the walk |
| RecoveryWalk.Recovery.RecoverCompleteSamples | cldy/uploader.go:224-292 | the whole walk with its final clean-up equals the specification, and reports an error exactly if it failed and its last directory was packed |
| RecoveryWalk.SourceContext | cldy/uploader.go:23-23 | the required names of the agent meet what the proofs ask of them, in any order of their map |
| RecoveryWalk.FlatTreeWalked | cldy/uploader.go:224-292 | on every flat tree, whatever the files and their names: the walk fails if and only if it stops in some directory; those before are packed in order exactly if nothing is needed after them, each with its own time, that one exactly if nothing is needed any more by then; all of these are gone, those behind are untouched, and the failure is reported exactly if the last one was packed |
| RecoveryWalk.WalkEndsExactly | cldy/uploader.go:242-246 | the walk comes through if and only if every file that is taken for an agent measurement can be read as one and comes up while something is still needed in its directory |
| RecoveryWalk.UnreadableAgentStops | cldy/uploader.go:306-326 | with an unreadable agent measurement first in its directory the walk packs nothing, deletes that directory, leaves later ones, complete or not, and reports no error |
| RecoveryOrders.MissedExactly | cldy/uploader.go:247-252 | some order of the map leaves a name needed if and only if the directory is hidden: its files can each use themselves up on names other than that one |
| RecoveryOrders.DoneExactly | cldy/uploader.go:247-252 | some order leaves nothing needed if and only if the names can be given files of their own that contain them, in order |
| RecoveryOrders.EndsInEveryOrder | cldy/uploader.go:242-252 | the walk comes through in every order if and only if agent measurements are readable and none comes up after files that some order packs its directory with |
| RecoveryOrders.FlatTreeRecovered | cldy/uploader.go:224-304 | on a flat tree without hidden complete directories, in every order of the map: packed are exactly the complete ones before the directory in which the walk stops, and that one if nothing is needed any more by then; those behind are untouched |
| RecoveryOrders.FlatTreeRecoveredExactly | cldy/uploader.go:224-304 | in every order the walk comes through and packs exactly the complete ones, if and only if no complete directory is hidden and no file ends the walk in any order |
| RecoveryOrders.OwnFilesSuffice | cldy/uploader.go:247-252 | it is enough that each required name has a file that matches no other |
| RecoveryWalk.CompleteSamplesExactly | cldy/uploader.go:224-304 | the specification lists a directory if and only if no required file is missing |
| RecoveryWalk.CompleteSamplesOnce | cldy/uploader.go:254-261 | and no directory twice |
| RecoveryWalk.PackedSamplesAreComplete | cldy/uploader.go:240-261 | with any file names, and even if the walk fails, only complete directories are packed |
| RecoveryWalk.EachFileCountsOnce | cldy/uploader.go:247-252 | a directory with fewer files than required names is not packed |
| RecoveryWalk.NestedTreeFails | cldy/uploader.go:265-281 | any directory within a sample directory makes the walk fail |
| RecoveryWalk.NestedLayoutRecoversNothing | cldy/emitter.go:302-302 | with samples below a cluster directory the walk fails, nothing is recovered, all is deleted, and the failure is not reported |
| SampleEmitter.Emitter.Init | cldy/emitter.go:295-323 | success leaves a first directory with statistics and no baseline, and without a failing operation it comes with the statistics; failure leaves no sample count |
| SampleEmitter.Emitter.Emit | cldy/emitter.go:325-356 | a call is dropped exactly within the buffer; without a failing operation any other ships exactly if the tick is whole and the current directory is there, unless one of the two directories is cleared for space; a success ships the filled current directory once and rotates to a new one whose baseline is the tick's statistics; a failure ships nothing and adds statistics of the tick's nodes at most; no shipped sample is written to again |
| SampleEmitter.ObjectsReadBack | cldy/emitter.go:407-416 | the object files of every shipped sample read back as the records of its tick if and only if each is shorter than 4 GiB, or in JSON has no line break |
| SampleEmitter.StatisticsAreLast | cldy/emitter.go:358-377 | its statistics hold, of every node of the tick, the last entry |
| SampleEmitter.OtherStatisticsWereFound | cldy/emitter.go:358-377 | and of other nodes what a failed tick has left there |
| SampleEmitter.EmittedHolds | cldy/emitter.go:335-353 | in any run the call that ships a sample ships the current directory, with the tick's own time and objects |
| SampleEmitter.Emitter.WriteStatsFile | cldy/emitter.go:379-405 | statistics go to the current directory, baselines to the next, none before the first sample; directories go for space only, and only old ones, all of them if no operation fails |
| SampleEmitter.Emitter.WriteStatsData | cldy/emitter.go:358-377 | success means that both directories have the statistics of all nodes; failure has touched nothing else |
| SampleEmitter.Emitter.WriteObjects | cldy/emitter.go:532-550 | the file holds the records one after the other, and only a failing operation or a missing directory keeps it from being written |
| SampleEmitter.Emitter.WriteMetadata | cldy/emitter.go:407-418 | all object files and the agent file are written, in any order of the map, or an operation has failed or the directory is missing |
| SampleEmitter.Emitter.ShouldDownsample | cldy/emitter.go:676-685 | the last emission is always as many intervals after the start as calls were granted |
| SampleEmitter.Emitter.SamplesPacked | cldy/uploader.go:516-527 | packed samples leave the disk under the emitter without disturbing the chain |
| SampleEmitter.Chain | cldy/emitter.go:335-353 | over every run, a baseline in a shipped sample is the statistics of that node in the previous shipped sample |
| SampleEmitter.ChainKept | cldy/emitter.go:335-353 | a tick, failed or not, keeps the chain and every shipped sample |
| SampleEmitter.ChainNext | cldy/emitter.go:350-353 | handing over and rotating extends the chain by one sample |
| SampleEmitter.ChainIsWhole | cldy/emitter.go:358-405 | over every run, the nodes of a shipped sample all have baselines in the next one if and only if its directory held statistics of no other nodes before its tick |
| SampleEmitter.FailedTickLeavesNode | cldy/emitter.go:335-353 | a run in which a failed tick leaves a node that is shipped without a baseline in the next sample |
| SampleEmitter.NoDirectoryNoEmission | cldy/emitter.go:379-401 | in any run, once the current directory is gone nothing is shipped any more |
| SampleRecovery.ShippedIsComplete | cldy/emitter.go:379-455 | the files of a shipped sample with a baseline are all that recovery asks for, whatever is beside them |
| SampleRecovery.HiddenExactly | cldy/uploader.go:247-252 | a sample directory can be missed if and only if its own path contains a required name, or each baseline node can be given a kind of its own that its name contains |
| SampleRecovery.RecoveredInEveryOrder | cldy/uploader.go:224-304 | hence it is packed in every order of the map, wherever it is, if and only if its path contains no required name and they cannot; one node whose name contains no kind is enough for the latter |
| SampleRecovery.ListingRecoveredExactly | cldy/uploader.go:224-304 | with any path and any node names a sample directory is complete, and is packed in every order by a walk that comes through if and only if it is not hidden and no file of it ends the walk |
| SampleRecovery.HalfWrittenAgentStops | cldy/emitter.go:552-616 | a crash between creating and writing the agent's file: start-up deletes that directory, whatever else it holds, leaves those behind it, and reports no error |
| SampleRecovery.ShippedIsRecovered | cldy/emitter.go:335-353 | the same for the samples of an emitter's run, the nodes being those of the tick before |
| SampleRecovery.NodesOneIsMissed | cldy/uploader.go:247-252 | the complete sample of a single node called "nodes-1", and an order that deletes it |
| SampleRecovery.ListingNames | cldy/emitter.go:379-455 | the modelled listing has the names of a shipped sample's files |
| EmitterFiles.KindContains | cldy/uploader.go:23-23 | no kind of object contains another required name |
| EmitterFiles.NodeFileContainsKind | cldy/emitter.go:396-396 | a kind in the name of a node's file is in the node's own name |
| EmissionSchedule.DueExactly | cldy/emitter.go:676-685 | what is due at a moment |
| EmissionSchedule.GrantedNext | cldy/emitter.go:676-685 | a call is granted if and only if fewer emissions were granted than are due |
| EmissionSchedule.NeverAhead | cldy/emitter.go:676-685 | the k-th emission comes only after k - 1 intervals and the buffer |
| EmissionSchedule.EarliestEmission | cldy/emitter.go:673-685 | the k-th emission may come right after k - 1 intervals and the buffer, for every k: ahead of k intervals by what the buffer leaves off |
| EmissionSchedule.CatchesUp | cldy/emitter.go:680-683 | after a stall that leaves m emissions due the next m calls are granted |
| EmissionSchedule.OnTime | cldy/emitter.go:676-685 | calls at most an interval apart keep exactly to the calendar |
| EmissionSchedule.GrantedIsLeast | cldy/emitter.go:676-685 | for any calls, what is granted in closed form |
| Framing.DecodeExactly | cldy/emitter.go:644-662 | the records come back if and only if each is shorter than 4 GiB |
| Framing.LeastFirst | cldy/emitter.go:657-659 | the length stands in front with its least significant byte first |
| Framing.DecodedIsStream | cldy/emitter.go:657-661 | a file has at most one reading |
| Framing.LongRecordReadsAsOthers | cldy/emitter.go:657-661 | a record of 4 GiB yields the bytes of a list of empty ones |
| Framing.LinesExactly | cldy/emitter.go:645-652 | JSON documents come back if and only if none has a line break |
| SafePaths.NoTraversal | cldy/util.go:135-143 | a safe path has no two dots in a row |
| SafePaths.IdempotentUnlessRoot | cldy/util.go:135-143 | a safe path is its own safe path if and only if it is not the root |
| SafePaths.RootOfDots | cldy/util.go:139-141 | the root becomes two slashes |
| SafePaths.StaysBelowBase | cldy/util.go:135-143 | the elements of a safe path are those of its base and then those of the rest without dots |
| SafePaths.UploadKeysAgree | cldy/uploader.go:657-672 | for every name the queue key of a tar is the key under which it is cleared if and only if the directory's dots resolve |
| SafePaths.SampleKeysAgree | cldy/emitter.go:428-442 | a sample is packed under the key it is added with, and forgotten under it if and only if the directory's dots resolve |
| SafePaths.RecoveredKeysAgree | cldy/uploader.go:463-464 | a recovered sample is added and removed under one key if and only if cleaning leaves no dots of its directory |
| SafePaths.DirectoriesThatAgree | cldy/util.go:135-143 | dots resolve in every directory without two in a row, and in some others |
| SafePaths.EmptyDirectoryDisagrees | cldy/util.go:135-143 | without a directory the keys differ |
| SafePaths.DotsDisagree | cldy/util.go:135-143 | one family of directories with two dots in which the keys differ |
| TarNames.ParseTimeExactly | cldy/uploader.go:338-341 | a stamp parses to a second if and only if it is that time in the layout, or with an hour of one digit, and maybe a fraction behind it |
| TarNames.TarNameRoundTrip | cldy/uploader.go:472-479 | for any directory and cluster ID the printed second is read back |
| TarNames.StampPlaces | cldy/uploader.go:472-479 | year, month, day, hour, minute and second in decimal digits, with dashes |
| TarNames.KeyOfTar | cldy/clients.go:813-834 | without underscores in the cluster ID every tar gets the key of its minute |
| TarNames.UnderscoreHidesTime | cldy/clients.go:814-819 | with one, all tars of the cluster fare alike |
| TarNames.KeysByMinute | cldy/clients.go:826-833 | two tars share a key if and only if they are of one minute |
| TarNames.KeyPlaces | cldy/clients.go:832-833 | where in a key the cluster, the date and the time stand, in its directories and in its file name |
| TarNames.PanicsExactly | cldy/clients.go:814-830 | the upload of a tar panics if and only if its cluster ID has an underscore with five segments behind it |
| TarNames.FiveSegmentsPanic | cldy/clients.go:823-830 | for instance every tar of an ID with a UUID behind an underscore |
| TarNames.ZoneRoundTrip | cldy/uploader.go:324-341 | a name printed in a zone is read back as the instant moved by the offset, so as the one printed if and only if the zone is at UTC |
| TarNames.ZoneMovesExpiry | cldy/uploader.go:342-345 | by its printed name a tar is deleted too early, or kept too long, exactly if its age is nearer to the recovery period than the offset |
| TarNames.ClockShows | cldy/uploader.go:477-477 | a wall clock shows something at every instant of the years with four digits |
| MetricsRetention.NewestAreTheGreatest | kubecost/adapters/metricsquerier.go:56-65 | what is retained are the two greatest starts |
| MetricsRetention.RetainThenUpdate | kubecost/adapters/metricsquerier.go:46-66 | forgetting before an update changes nothing that is retained after it |
| MetricsRetention.UpdateRetains | kubecost/adapters/metricsquerier.go:46-66 | a cache that retains a history retains it with a batch added |
| MetricsRetention.LatestIsLast | kubecost/adapters/metricsquerier.go:68-75 | a key has the last snapshot of its start |
| MetricsRetention.EvictionEnds | kubecost/adapters/metricsquerier.go:57-65 | reading the clock in every pass, which never steps back, the eviction loop ends if and only if some reading leaves at most two later starts, and then the newest are left |
| MetricsRetention.AdvancingClockEnds | kubecost/adapters/metricsquerier.go:57-65 | so it ends if the clock goes on |
| MetricsRetention.MetricsResolution.constructor | kubecost/adapters/metricsquerier.go:28-43 | a new cache holds the latest of its first snapshots, all of them |
| MetricsRetention.MetricsResolution.Update | kubecost/adapters/metricsquerier.go:46-66 | after any update the map holds exactly the two greatest starts ever seen with the latest snapshot of each; an empty update changes nothing |
| MetricsRetention.MetricsResolution.SnapshotFor | kubecost/adapters/metricsquerier.go:78-97 | a query is answered by the truncated start of its window |
| MetricsRetention.LookupSearchesHistory | kubecost/adapters/metricsquerier.go:78-97 | an answer is the last snapshot of that start in the whole history, given exactly if fewer than two later starts were seen |
| SnapshotWindows.BoundaryNesting | pkg/emitter/snapshot.go:285-309 | if a coarse resolution queries two windows, so does every finer one that divides it |
| SnapshotWindows.ClosedByLeaving | pkg/emitter/snapshot.go:285-309 | a window is closed by exactly the snapshot that leaves it |
| SnapshotWindows.ClosedAtMostOnce | pkg/emitter/snapshot.go:285-309 | no window is closed twice |
| SnapshotWindows.CoverageExactly | pkg/emitter/snapshot.go:285-309 | every past window is closed if and only if no snapshot skips a whole window |
| SnapshotWindows.CloseSnapshotsSkipNothing | pkg/emitter/snapshot.go:251-256 | snapshots at most a resolution apart skip none |
| SnapshotWindows.WindowsAreContiguous | pkg/emitter/snapshot.go:285-309 | the queried windows follow each other without a gap |
| SnapshotWindows.FinalDataIffClosingSucceeds | pkg/emitter/snapshot.go:62-65 | a past window has a snapshot from its end or later if and only if the one that closes it succeeds |
| SnapshotWindows.FailureLosesAWindow | pkg/emitter/snapshot.go:62-65 | a run in which one failure loses the end of a window |
| SnapshotWindows.RunRetains | kubecost/adapters/metricsquerier.go:46-66 | after a run without failures the cache is exactly the current window and the one before |
| SnapshotWindows.RunAnswers | kubecost/adapters/metricsquerier.go:78-97 | end to end: the window just left is answered with the snapshot that closed it |
| MetricsExport.SnapshotProvider.SnapshotWindowedMetrics | pkg/emitter/snapshot.go:257-280 | all windows are queried, and without an error there is one snapshot for each |
| MetricsExport.SnapshotProvider.SnapshotOf | pkg/emitter/snapshot.go:58-110 | a snapshot succeeds exactly if all of its queries do, and the time of the last snapshot moves on either way |
| MetricsExport.EveryPartCounts | pkg/emitter/snapshot.go:68-100 | any failing part, and any failing query of a resolution in use, costs the whole snapshot, and nothing else does |
| MetricsExport.MetricsQuerierAdapter.Update | kubecost/adapters/metricsquerier.go:118-125 | each resolution takes in its own batch, and a disabled one stays as it is |
| MetricsExport.MetricsQuerierAdapter.MetricsSnapshotFor | kubecost/adapters/metricsquerier.go:128-162 | a query is answered by the resolution of its length, and by none if there is none |
| MetricsExport.Start | pkg/emitter/exporter.go:66-81 | the first snapshot starts the adapter, or its failure ends the loop |
| MetricsExport.Follow | kubecost/adapters/metricsquerier.go:118-125 | a successful snapshot keeps the three caches in step with the run |
| MetricsExport.ExportLoop | pkg/emitter/exporter.go:66-117 | over any run with any failures the caches equal the retained part of the whole history, and the eviction loops end |
| NodePolling.FetchesAreBounded | pkg/nodes/collection.go:74-85 | in every interleaving at most ConcurrentPollers fetches run |
| NodePolling.OneEntryPerNode | pkg/nodes/collection.go:76-121 | on return each node that is not nil has exactly one entry in the two lists together, and no other has |
| NodePolling.ResultsByOutcome | pkg/nodes/collection.go:94-119 | on return the statistics are of exactly the nodes whose fetch succeeded and the errors of exactly those whose fetch failed, each node that is not nil having been fetched once |
| NodePolling.NoDeadlock | pkg/nodes/collection.go:66-124 | with a poller, or nothing to poll, someone can always go on |
| NodePolling.RunsEnd | pkg/nodes/collection.go:76-124 | no run has more than ten steps a node and two |
| NodePolling.NoPollerNoProgress | pkg/nodes/collection.go:74-82 | without a poller the first node blocks the loop for ever |
| NodePolling.ReturnsExactly | pkg/nodes/collection.go:66-124 | every run that cannot go on has returned if and only if there is a poller or nothing to poll |
| ResourcePruning.PruneTwice | pkg/cluster/dynamic.go:238-247 | pruning twice is pruning by both sets of paths: order does not matter, repeating changes nothing |
| ResourcePruning.WhatSurvives | pkg/cluster/dynamic.go:238-247 | a value is at its place after pruning unless a path leads to it or around it, and is pruned by the rest of the paths |
| ResourcePruning.LeafSurvives | pkg/cluster/dynamic.go:238-247 | a leaf survives unchanged if and only if no path is a prefix of its own |
| ResourcePruning.RemovePrunes | pkg/cluster/dynamic.go:244-246 | removing a nested field is pruning by its path |
| ResourceCleaning.Resource.CleanResourceFieldsFromPath | pkg/cluster/dynamic.go:238-247 | the loop prunes by the annotation path and all given paths at once |
| ResourceCleaning.Resource.CleanContainers | pkg/cluster/dynamic.go:249-284 | every container of both lists is pruned, and it panics exactly for one that is no object |
| ResourceCleaning.Resource.CleanResource | pkg/cluster/dynamic.go:218-236 | the steps together are one pruning, by paths that depend on the kind and on the annotations |
| ResourceCleaning.AnnotationsPruned | pkg/cluster/dynamic.go:240-242 | reading, deleting from and setting the annotations removes the last-applied configuration, or all of them, and makes nulls among them empty texts if they are read so |
| ResourceCleaning.CleanedTwice | pkg/cluster/dynamic.go:218-236 | cleaning is idempotent, and sanitising before or after plain cleaning is sanitising |
| ResourceCleaning.CleanedDoesNotPanic | pkg/cluster/dynamic.go:270-282 | a resource that could be cleaned can be cleaned again |
| ResourceCleaning.LeafOfCleaned | pkg/cluster/dynamic.go:218-284 | a leaf is unchanged but for nulls among annotations, or gone if and only if a path for its kind or its annotations leads to it |
| ResourceCleaning.ConfiguredAreGone | pkg/cluster/dynamic.go:218-284 | nothing is left at a configured path |
| ResourceCleaning.ContainersLoseFields | pkg/cluster/dynamic.go:249-284 | no container keeps its environment, nor its command when sanitised: of a pod in its own spec, of other kinds in that of their template |
| ResourceCleaning.IdentityStays | pkg/cluster/dynamic.go:218-247 | outside the spec nothing is changed but annotations, managed fields and finalizers |
| ResourceCleaning.OddAnnotationRemovesAll | pkg/cluster/dynamic.go:240-242 | annotations survive if and only if all of them read as strings, with either reading of nulls |
| ResourceCleaning.MisspeltKinds | pkg/cluster/dynamic.go:68-83 | the tables have no entry for "DaemonSet" and "CronJob" |
| ResourceCleaning.DaemonSetKeepsStrategy | pkg/cluster/dynamic.go:68-70 | the update strategy of a daemon set survives sanitising |
| ImageRefs.ParsesExactly | e2e/harness/config.go:119-145 | the parser accepts exactly the printed valid references and reads each as what was printed |
| ImageRefs.TaggedExactly | e2e/harness/config.go:119-145 | which error a tagged image meets, by what stands before and behind its first slash |
| ImageRefs.MissesTagExactly | e2e/harness/config.go:124-131 | a tag is missing exactly if the image does not end in a colon and a tag |
| ImageRefs.PrintIsInjective | e2e/harness/config.go:119-145 | two valid references print alike only if they are equal |

## Left out

- Network I/O: a storage service accepts or fails; logins, presigned URLs, cloud SDKs, proxies and the retry loop of the HTTP client are not modelled. Which services a configuration yields is a parameter.
- File formats: gzip, tar, MD5 and JSON are reduced to complete or partial, and to which samples a tar holds. Objects enter the emitter already encoded.
- The cached metrics path (`UseMetricsCache`), marked temporary in the source; the model is of the uncached one.
- Clocks that step back within a process, and power loss without a sync. The directories that an emitter finds were made in earlier milliseconds, and one that is cleared was not made in the current one.
- The buffer of the emission schedule is any duration between nothing and the interval; the 32-bit rounding of nine tenths is not modelled. The comparison of ages in floating-point hours is one of durations.
- CldyUploader.Uploader.ClearOldUploadSamples: the payload being written is taken to be younger than half the recovery period, because it has just been created.
- CldyUploader.Uploader.RecoverCompleteSamples: takes the verdict on each directory as given; StartUp takes it from the walk, which there packs in its own model of a directory, so that a payload that fails ends the pass over directories and not the walk.
- StartUp.Naming.NamesOfSeconds: years of more than four digits are not modelled, nor is the safe path of a name, which is in SafePaths.
- StartUp.RecoverFlat: if a directory cannot be packed or deleted, the error is that of the pass over directories; which files the walk has read by then is not described.
- CldyUploader.Uploader.EnsureStorageServices: whether a rebuild is due and succeeds is an input; the cooldown and the lock are in StorageServices.
- UploadPipeline.QueueAlwaysSound: assumes fresh payload names, because reuse of a name is shown to break it.
- RecoveryWalk.FlatTreeWalked: the walk's packing and deletions are taken to succeed; StartUp has them fail. Loose files in the scratch root that complete a sample before any directory make the walk fail, as the deletion of "." does.
- SampleRecovery.HiddenExactly: for node names that contain none of the required names with a dash in them, and a path that is not itself taken for an agent measurement, below which the walk stops at the second file. ListingRecoveredExactly has no such condition.
- SampleRecovery.RecoveredInEveryOrder: for such node names; so too ShippedIsRecovered.
- SampleEmitter.Emitter.ClearOldScratchSamples: a directory that is cleared half way counts as gone here; UploadPipeline has half removed ones. Only directories untouched for an hour are cleared, and the current and the next one are written to in every tick, so this concerns them only after an hour without one.
- SampleEmitter.Emitter.Emit: after a failed write the contents of a file are arbitrary, and disk pressure may clear any directory at any statistics file; which of them are old is an input. Node names are taken as map keys, and spelt out as file names in EmitterFiles. Without a directory of its own, an emitter whose Init has failed writes to the working directory, which is taken to hold no baselines.
- TarNames.ParseTimeExactly: gives the time to the second; a fraction, which no name printed by the agent has, is accepted and dropped.
- TarNames.ZoneRoundTrip: the zone's offset at an instant is a parameter; zone rules are not modelled.
- StorageServices.InvKept: a read lock may be taken while a writer waits, because Go's preference for writers only removes interleavings.
- ResourceCleaning.Resource.CleanResource: works on tree values; that two parts of one object could share a map is not modelled. After a panic in the middle the state is not described. The kind is a field of the object beside the tree. How the Kubernetes library reads a null annotation depends on its version, and is a parameter.
- SafePaths.UploadKeysAgree: for names without two dots in a row, as the agent gives them.
- Paths of cleaned fields are lists of keys; splitting them at dots is not modelled.
- The many Query methods of the metrics adapter, informers, configuration, health reporting, short-lived pods and the Kubernetes harness code: uniform wrappers or plumbing.
