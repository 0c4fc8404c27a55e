# Scylla Manager: verified models of its scheduler and backup core

Scylla Manager runs tasks on Scylla clusters by schedule and keeps deduplicated backups of them in object
storage. This project models the parts of it whose correctness is hard to see from the code, and proves what
they are for. `dafny verify dfyconfig.toml` checks everything.

## What is modelled

**Maintenance windows** (`WeekTime`, `Slots`, `JoinSlots`, `JoinCorrect`, `JoinExact`, `WindowNext`,
`WindowExact`, `NewWindow`). Weekly slots lie on a circle of one week. They are validated, expanded, sorted,
merged against a rolling clock with a wrap-around step, and searched by a binary search over a rotated sequence.
An instant is an integer number of half nanoseconds in a zone of fixed offset, 0 being a Monday 00:00; every time
that Go can express is an even one, and between any two of these there is an instant. `joinSlots` starts its clock on
Monday rather than at the first slot, and so does not keep what it is for on all inputs. The project proves exactly
when it does, and exactly when `Window.Next` answers with the least open instant, in terms of two conditions on the
sorted slots:

- G (`ClosedBeforeMonday`): some instant strictly between the first begin and the next Monday 00:00 is closed.
- H (`FirstNotSwallowed`): what crosses Monday 00:00 does not reach the close of the stretch of the first slot.

The search compares whole seconds only, so that `Window.Next` needs in addition that the last close of a week and the
first close of the next do not share a second (`SecondsTell`), which holds for all points read from text.

Concrete windows show both failures. The doc comment of `Window.Next`, "end is always > now", does not hold
either: at a closing instant the end is `now` (`EndOfAnswer`).

**The scheduler** (`Activation`, `SchedulerSpec`, `SchedulerInv`, `SchedulerWindows`, `SchedulerChains`, `Scheduler`). The
activation queue is the binary heap of Go's `container/heap` on a slice changed in place, proved to act as a map from
key to activation. The scheduler is a state machine at lock granularity, in which `Schedule`, `Unschedule`, `Trigger`,
`Stop`, `Close`, the peek, sleep and pop of the main loop and the end of a run interleave freely. `Scheduler` is the
class with the fields of the source; each of its methods is proved to make its step of the machine, and says outright
what the step does to queue, details and runs. `SchedulerWindows` ties activations and runs to maintenance windows:
whatever is queued opens and closes in a window that its key was scheduled with.
The clock, the trigger and the backoff are parameters. A run may start before its activation time, because the
main loop compares only keys after its sleep, and after `Close`, because `Trigger` and the pop do not look at
`closed`; the project claims neither impossible.

**Backups** (`Tags`, `Versioning`, `FileSet`, `BackupStore`, `BackupRuns`, `KeptSnapshots`, `Purger`, `Retention`,
`Dispatch`, `WorkerPurge`, `Validation`, `ValidationStore`). Remote storage is a map from files to contents with a map of
manifests; a file is a path in a location. A backup puts a temporary manifest, uploads file by file and again (same
content is skipped, anything else that would be overwritten is renamed to `name.sm_<tag>`), stores Scylla manifests, and
moves its manifest, perhaps back again, whatever it has uploaded by then. An upload may also stop after it has set the old
file aside. A purge works on the manifests of one node ID, which may lie in several locations, under three rules, and may
stop anywhere. A validation may delete orphans.

The end-to-end theorems speak of files that were uploaded and of snapshots that no purge *picks*. A purge picks a
snapshot when its tag is among the stale tags, also while its manifest is temporary. `KeptSnapshotsRestore` says that a
file uploaded by a snapshot restores as long as a manifest of the snapshot is stored and no purge has picked it since the
upload. That a manifest is complete does not say that its files were uploaded: a backup stopped in its upload stage can
lose its local snapshot to another backup's, be resumed with nothing to upload, and still move its manifest
(`FinishedWithoutUpload`); and a snapshot picked while its backup was under way can still be finished
(`FinishedWithoutItsFile`). `FinishExact` gives the exact condition for every finish: the snapshot restores, until it is
picked or begins again, if and only if it is restorable when its manifest is moved, and for the newest snapshot of a node
that means that all its SSTable files are stored as they were.

The purge computes one set of paths for all manifests of a node ID and deletes it in the location of the first of them.
With manifests in two locations files can stay behind that no manifest lists (`SecondBucketIsStranded`);
`NoOrphansExact` says exactly when. No kept file is lost even then: `WorkerPurge` joins listing, retention, dispatch and
purge, and shows that every group handed out makes a purge for which the end-to-end theorems hold. A validation looks in
the location of the first manifest as well, and calls a snapshot in another bucket broken though nothing is missing
(`SecondBucketIsMisreported`); `BrokenExact` says exactly when a tag is reported right.

**Names** (`Paths`, `Uuids`, `ManifestPath`, `SSTableNames`). Manifest paths are printed and parsed down to the
characters, through Go's `path.Clean`, `path.Join` and `strings.Split`. The regular expressions for SSTable names
become predicates on the dash-separated parts, for the leftmost match.

**Ring, progress, replication** (`Ring`, `Progress`, `ReplicationFactor`): the grouping of token ranges by replica
set, the progress tree, the choice of replication factors.

Where a law of the source is false on some inputs, the project keeps the code as it is and proves the exact
condition: `JoinExact`, `FoundExact`, `SearchExact`, `NextExact`, `NewWindowNext`, `GivingUpExact`, `NoOrphansExact`,
`FinishExact`, `BrokenExact`, `RetentionExact`, `FiledExact`, `PathExact`, `RenameExact`; each has a concrete input on which the law fails.

## Model

| member | source | states |
|---|---|---|
| WeekTime.NextIsLeast | pkg/scheduler/window.go:93-104 | the branches of Next give the least instant at or after now on that day at that time |
| Slots.ExpandOpensTheSame | pkg/scheduler/window.go:130-146 | an each-day slot and its seven daily slots, also over midnight, open the same instants |
| Slots.ValidateExact | pkg/scheduler/window.go:113-128 | a slot is accepted iff it goes from one weekday time to another, in whatever order of the times of day, or each day from one time to another; which error is reported otherwise |
| JoinSlots.Join | pkg/scheduler/window.go:185-220 | the loop over the window with its rolling clock and the wrap-around step compute Joined, about which the next rows are |
| JoinExact.JoinedUnderG | pkg/scheduler/window.go:185-220 | under G the joined slots open exactly the same instants, and are disjoint in the order of the circle iff H holds |
| JoinExact.JoinExact | pkg/scheduler/window.go:185-220 | joining gives disjoint slots with the same open instants iff there is one slot, or G and H hold, or the first begin is tied in one harmless way |
| WindowNext.ComputeNext | pkg/scheduler/window.go:225-262 | the binary search over the rotated closes and the answer taken from the slot found |
| WindowNext.FoundClosesFirst | pkg/scheduler/window.go:231-251 | when the seconds tell, the slot found is the one a linear search for the first close after now would give |
| WindowNext.FoundExact | pkg/scheduler/window.go:231-251 | it is that slot at every instant iff the last close and the first close of the next week do not share a second |
| WindowNext.SearchExact | pkg/scheduler/window.go:222-262 | on a joined window Next is right at every time of Go iff the seconds tell |
| WindowNext.NextIsLeastOpen | pkg/scheduler/window.go:222-262 | on a joined window whose seconds tell, begin is the least open instant from now on, and end the close of the open stretch it lies in |
| WindowNext.EndOfAnswer | pkg/scheduler/window.go:222-262 | end is never before now, and equals now exactly at a closing instant, against the doc comment |
| WindowExact.NextExact | pkg/scheduler/window.go:185-262 | join and search answer right at every time of Go iff one slot, or G and H and the seconds tell, or the first slot crosses Monday harmlessly |
| NewWindow.Create | pkg/scheduler/window.go:152-183 | succeeds iff there are points, in even number, and every pair is a slot from one weekday time to another or each day from one time to another; otherwise the error of the first faulty pair; the window is that of the expanded, sorted and joined slots |
| NewWindow.UserSees | pkg/scheduler/window.go:152-183 | expanding and sorting keep the open instants that the user's points describe |
| NewWindow.NewWindowNext | pkg/scheduler/window.go:152-262 | from the user's points: Next answers with the least instant in any weekly or each-day slot, at every time of Go, iff the exact condition holds |
| NewWindow.NewWindowNextInSeconds | pkg/scheduler/window.go:61-86 | for points in whole seconds, as text gives them, the seconds always tell and the condition is G and H alone, one slot, or a harmless crossing |
| NewWindow.InsideOneWeekIsFine | pkg/scheduler/window.go:185-220 | slots that all lie inside one Monday-to-Sunday week satisfy G and H |
| NewWindow.EachDayIsFine | pkg/scheduler/window.go:130-146 | a single each-day slot satisfies G and H however its days are sorted |
| NewWindow.LosesTheWeekend | pkg/scheduler/window.go:185-220 | without G: Tuesday to Thursday with Wednesday to Monday noon leaves only Tuesday to Thursday |
| NewWindow.AnswersLate | pkg/scheduler/window.go:185-262 | without H: Monday 0:00-6:00 with Sunday 0:00 to Tuesday 0:00, asked on Sunday noon, is answered late |
| NewWindow.SameSecondAnswersLate | pkg/scheduler/window.go:225-262 | closes within one second confuse the search, which compares whole seconds |
| Activations.HeadIsEarliest | pkg/scheduler/activation.go:44-57 | the head of a heap is no later than any element |
| Activations.PermutedContents | pkg/scheduler/activation.go:44-69 | rearranging a heap with unique keys keeps the map it stands for |
| Activations.ActivationQueue.Up | pkg/scheduler/activation.go:84-116 | sifting up restores heap order and only permutes |
| Activations.ActivationQueue.Down | pkg/scheduler/activation.go:84-116 | sifting down restores heap order, or changes nothing and says so, and only permutes |
| Activations.ActivationQueue.Push | pkg/scheduler/activation.go:84-93 | inserts or replaces the key's activation in the map; true iff that key is then the head, which is of minimal time |
| Activations.ActivationQueue.Pop | pkg/scheduler/activation.go:95-100 | takes an activation of minimal time out of the map, exactly that one |
| Activations.ActivationQueue.Top | pkg/scheduler/activation.go:102-107 | shows an activation of minimal time and changes nothing |
| Activations.ActivationQueue.Remove | pkg/scheduler/activation.go:109-116 | deletes exactly that key; true only if it was the head |
| SchedulerInv.StepKeeps | pkg/scheduler/scheduler.go:101-446 | every step keeps: one run per key, no key queued and running, nothing scheduled lost, no lost wake-up |
| SchedulerInv.Reachable | pkg/scheduler/scheduler.go:101-446 | every reachable state has the invariant; in it, while the main loop sleeps, a token is buffered or nothing queued is due before the deadline taken at the peek |
| SchedulerInv.AtMostOneRun | pkg/scheduler/scheduler.go:434-446 | in every reachable state: one run per key and exactly for the keys in running, queued keys have details and do not run, until Close every key with details is queued or running |
| SchedulerInv.DueIsServed | pkg/scheduler/scheduler.go:346-432 | in every reachable state a due activation finds a sleeping main loop able to wake, by a token or by its timer |
| SchedulerInv.CloseEndsLoop | pkg/scheduler/scheduler.go:306-388 | after Close the sleeping loop has a token, and its next peek ends it |
| SchedulerChains.SequencesAlways | pkg/scheduler/scheduler.go:120-204 | along continuations and retries the initial activation stays that of the first run and the retry number is the number of retries taken, as int8 |
| SchedulerChains.NoTickSkipped | pkg/scheduler/scheduler.go:154-204 | an end in success, by stop or by permanent failure queues the key, in its window, for the very next tick after the initial activation, however long the chain took |
| SchedulerChains.GivingUpExact | pkg/scheduler/scheduler.go:159-168 | when the backoff gives up, the key is queued, in its window, for the first tick from now on, which is the very next one after the initial activation iff no tick lies between that and now |
| SchedulerChains.GivingUpSkips | pkg/scheduler/scheduler.go:159-168 | with a tick every ten, a run activated at 10 whose last retry fails at 36 is followed by 40: 20 and 30 are skipped |
| SchedulerWindows.WindowsAlways | pkg/scheduler/scheduler.go:101-446 | along every execution each queued activation opens and closes in a window its key was scheduled with, and each run not triggered by hand stops at the close that its activation had |
| SchedulerWindows.ScheduleInWindow | pkg/scheduler/scheduler.go:101-118 | a key that does not run is queued at the least open instant of its window from its tick on, with the close of that stretch as its stop; without a window at the tick, and without a stop |
| SchedulerWindows.RunEndsInWindow | pkg/scheduler/scheduler.go:120-231 | by the cause and the error of a run: out of its window it goes on at the next open instant from now, after a failure from the end of the backoff, and otherwise it waits for its next tick, each in the window; a stopped run is not retried |
| SchedulerWindows.PoppedRun | pkg/scheduler/scheduler.go:372-388 | the run that a pop starts has the stop, retry number, properties and initial activation of the popped activation, which was one of the earliest |
| SchedulerWindows.StopsAtWindowEnd | pkg/scheduler/scheduler.go:36-53 | a run can be stopped as out of its window exactly from its stop on, unless it is cancelled already |
| SchedulerSpec.Int8Wraps | pkg/scheduler/scheduler.go:159-168 | the retry number is the least one of its residue that int8 holds |
| Schedulers.Scheduler.Schedule | pkg/scheduler/scheduler.go:101-118 | makes the Schedule step: details replaced; a key that does not run is queued for its tick at the next open instant of its window, or not at all without a tick |
| Schedulers.Scheduler.Unschedule | pkg/scheduler/scheduler.go:238-250 | makes the Unschedule step: details and queued activation of the key are gone, and nothing else |
| Schedulers.Scheduler.Trigger | pkg/scheduler/scheduler.go:255-278 | makes the Trigger step; false exactly for keys that neither run nor have details; a key that does not run gets a run without end that begins a sequence |
| Schedulers.Scheduler.Stop | pkg/scheduler/scheduler.go:280-289 | makes the Stop step: the key's run is cancelled as stopped if nothing cancelled it before, and no other run |
| Schedulers.Scheduler.Close | pkg/scheduler/scheduler.go:306-321 | makes the Close step: every run is cancelled; reports the running keys and the pending ones with their activation times |
| Schedulers.Scheduler.Reschedule | pkg/scheduler/scheduler.go:120-231 | makes the step that ends a run: what follows by its cause and error, in the window of its key, as in RunEndsInWindow |
| Schedulers.Scheduler.Peek | pkg/scheduler/scheduler.go:346-371 | makes the Peek step of the main loop |
| Schedulers.Scheduler.PopAndRun | pkg/scheduler/scheduler.go:372-388 | makes the Pop step: runs the head only if its key is the one slept for, with what its activation says |
| Tags.TagOfTime | backupspec/tags.go:26-42 | the tag of a time is a tag, and gives the time back |
| Tags.TimeOfTag | backupspec/tags.go:26-42 | a tag that has a time is the tag of that time |
| Tags.TagForm | backupspec/tags.go:16-42 | a tag is sm_, fourteen digits and UTC, and no other text has a time |
| Tags.TagOrder | backupspec/tags.go:16-42 | string order of tags is the order of their times, and tags of one time are equal |
| Versioning.SplitOfFullName | pkg/service/backup/versioning.go:32-80 | a full name splits into its name and version, when the version is a tag, or empty and the name not ending in a tag |
| Versioning.FullNameOfSplit | pkg/service/backup/versioning.go:32-80 | joining what any name splits into gives the name |
| Versioning.FullNamesDiffer | pkg/service/backup/versioning.go:32-80 | different files or versions have different full names |
| Versioning.RemovableExact | pkg/service/backup/versioning.go:50-70 | a file is removable iff it is the version of a file for a dated tag not later than the oldest kept one |
| Versioning.ChooseVersion | pkg/service/backup/versioning.go:107-135 | chooses the earliest version later than the snapshot, or else the newest; fails on a version without a date |
| Versioning.ListVersionedFiles | pkg/service/backup/versioning.go:83-138 | for every name that is listed, itself or as a version, and is no Scylla manifest, the listed item that restore has to read, with its size |
| FileSets.FileSet.RemoveFiles | pkg/service/backup/fileset.go:42-47 | the two-level set loses exactly these paths of the flat set it stands for |
| FileSets.FileSet.Size | pkg/service/backup/fileset.go:63-69 | the sum over the directories is the size of the flat set |
| BackupStore.NoOrphansExact | pkg/service/backup/purger.go:108-223 | wherever a purge stops, every stored file that an input manifest listed is still listed by a stored manifest, iff no file is stranded: listed only by stale manifests, and in another location than the first or kept for another location |
| BackupStore.NoOrphansInOneLocation | pkg/service/backup/purger.go:108-223 | no file is stranded when the manifests lie in one location |
| BackupStore.SecondBucketIsStranded | pkg/service/backup/purger.go:186-212 | a node backed up to two buckets, both snapshots stale: the file in the second bucket stays |
| BackupStore.ToDeleteExact | pkg/service/backup/purger.go:125-183 | deleted are exactly the files that stale manifests list and no kept one, and the versions of the first node's files that are dated and not later than the oldest kept tag |
| BackupStore.NoOldVersionLeft | pkg/service/backup/purger.go:153-182 | a whole purge leaves no version of the node's files dated up to the oldest kept tag |
| BackupRuns.ActKeeps | pkg/service/backup/versioning.go:16-30 | every action, with a manifest moved whatever was uploaded, keeps: manifests list what their snapshots held, versions were made by the backups of their tags, what the newest backup uploaded is stored as it was or gone, what it only set aside is the content still stored |
| KeptSnapshots.ActKeepsFile | pkg/service/backup/purger.go:108-223 | no action takes a file that reads back from a snapshot that it neither picks nor begins again |
| KeptSnapshots.CopyKeepsFile | pkg/service/backup/worker_deduplicate.go:124-126 | nor does an upload that stops after copying the old file to its version |
| KeptSnapshots.RemoveKeepsFile | pkg/service/backup/worker_deduplicate.go:124-126 | nor one that stops after removing the old file too |
| KeptSnapshots.DropKeepsFile | pkg/service/backup/purger.go:315-321 | nor a validation that deletes orphans |
| KeptSnapshots.KeptSnapshotsRestore | pkg/service/backup/purger.go:108-223 | over every run of backups, purges and validations, an SSTable file that a snapshot uploaded resolves to the content of the snapshot's begin, as long as a manifest of the snapshot is stored and no purge has picked it since the upload |
| KeptSnapshots.ScyllaManifestsStay | pkg/service/backup/worker_manifest.go:168-190 | the same for uploaded Scylla manifests, which kept manifests do not protect, unless the snapshot begins again |
| KeptSnapshots.FinishExact | pkg/service/backup/worker_manifest.go:193-262 | a snapshot finished at some step, whatever was uploaded or purged before, restores until a purge picks it or it begins again iff it is restorable when its manifest is moved, which for the newest of its node means that all its SSTable files are stored as they were |
| KeptSnapshots.NewestIsRestorable | pkg/service/backup/versioning.go:107-135 | the newest snapshot of a node restores iff all its SSTable files are stored with the content they had |
| KeptSnapshots.FinishedWithoutUpload | pkg/service/backup/worker_index.go:130-153 | a backup begun and finished with nothing uploaded: its complete, unpicked manifest lists a file that was never stored |
| KeptSnapshots.RestorableUntilPicked | pkg/service/backup/purger.go:108-223 | a snapshot with a stored manifest restores until a purge picks it or it begins again iff it restores now |
| KeptSnapshots.FinishedWithoutItsFile | pkg/service/backup/purger.go:186-188 | a purge stopped after deleting the file of a running backup, which then finishes: its complete manifest lists a file that is not stored |
| BackupRuns.ScyllaNameIsTagged | pkg/service/backup/worker_manifest.go:279-285 | a renamed Scylla manifest carries the tag of its snapshot in a fixed place |
| KeptSnapshots.RestoreReads | pkg/service/backup/versioning.go:83-138 | the version chosen from the listing is a stored file with the content that the file resolves to |
| KeptSnapshots.UploadsHappen | pkg/service/backup/worker_deduplicate.go:124-126 | which uploads and half uploads there are: every file of the newest backup can be uploaded and is then stored with its content |
| KeptSnapshots.ManifestsMove | pkg/service/backup/worker_manifest.go:193-262 | every temporary manifest can be moved or copied, whatever was uploaded |
| BackupRuns.PutKeepsOlder | pkg/service/backup/versioning.go:16-30 | renaming the overwritten file to its version keeps what every older snapshot reads |
| BackupRuns.PutExact | pkg/service/backup/versioning.go:16-30 | for a snapshot that reads the file itself an upload keeps that iff the content is the same or the snapshot is older than the tag of the upload |
| KeptSnapshots.PurgeSparesFile | pkg/service/backup/purger.go:108-223 | a purge deletes no file of a snapshot that it does not pick |
| KeptSnapshots.PurgeSparesVersion | pkg/service/backup/purger.go:155-183 | nor a version later than its tag |
| Purger.Bucket.PurgeSnapshotTags | pkg/service/backup/purger.go:108-223 | exactly which files and manifests are gone, for manifests in any locations and every set of failing deletions; when it succeeds no version dated up to the oldest kept tag is left and every stale manifest with its temporary shadow is gone but those that fail; manifests go only after all computed files; satisfies the crash-point specification |
| Purger.RemovedCounts | pkg/service/backup/purger.go:191-222 | the number that a purge answers is that of the stale manifests it removed |
| Purger.Bucket.DeleteFiles | pkg/service/backup/purger.go:411-451 | deletes all paths of the set in the location but those that fail, succeeds iff none fails, and counts the files found in the directories without a failure |
| Retention.StaleTags | pkg/service/backup/purger.go:29-61 | a tag is stale iff a temporary or too old manifest has it, or the count policy of some task cuts it |
| Retention.StaysExact | pkg/service/backup/purger.go:29-61 | by dates and numbers alone: a tag stays iff every manifest with it, of any task, is complete, not before the cutoff of its task's days, and has fewer newer complete tags in its task than the policy keeps; a deleted task keeps thirty days |
| Retention.StaysNewer | pkg/service/backup/purger.go:29-61 | with unshared tags the complete tags that stay are newer than those that go, whatever the policy |
| Retention.TemporaryIsStale | pkg/service/backup/purger.go:42-44 | the tag of a temporary manifest is always stale |
| Retention.SurvivorsAgree | pkg/service/backup/purger.go:29-61 | a tag survives iff every manifest with it, of any task, is kept by the policy of its own task |
| Retention.RetentionExact | pkg/service/backup/purger.go:29-61 | a task keeps only newest tags, and all of them iff every manifest with one of them, of any task, is kept by the policy of its own task |
| Retention.RetentionOfUnsharedTags | pkg/service/backup/purger.go:29-61 | with unshared tags it keeps exactly min(r, n), all newer than those it cuts |
| Retention.SharedTagIsLost | pkg/service/backup/purger.go:29-61 | a tag shared between tasks can cost a task its only backup |
| Retention.ProtectedTags | pkg/service/backup/list.go:29-42 | the tags of manifests under an event based hold, or locked until after now, and no others |
| Retention.FilterShadowed | pkg/service/backup/list.go:233-257 | the manifests in their order without exactly the temporary ones that have a complete one |
| Retention.UnshadowedInOrder | pkg/service/backup/list.go:233-257 | what is left is in the order of the list |
| Retention.OldestKeptTag | pkg/service/backup/purger.go:63-81 | the least time of the tags kept, none if none is kept, an error iff a kept tag has no time |
| Retention.PlanPurge | pkg/service/backup/worker_purge.go:14-37 | the tags purged are the stale and unprotected ones, and oldest is no later than any kept tag, shadowed manifests included |
| WorkerPurge.HandedIsGroup | pkg/service/backup/list.go:259-265 | what is handed out for a node ID of a listing holds all stored unshadowed manifests that a purge in the first one's location must know |
| WorkerPurge.HandedIsPurged | pkg/service/backup/worker_purge.go:14-111 | plan, grouping and purge together make a purge step as runs have it, stopped anywhere, in one location or more |
| WorkerPurge.WorkerPurges | pkg/service/backup/worker_purge.go:36-111 | under every interleaving of the host loops every handed group still makes such a step |
| WorkerPurge.WorkerKeepsSnapshots | pkg/service/backup/worker_purge.go:14-111 | a whole purge takes no file from a snapshot whose tag it does not purge |
| Dispatch.Dispatcher.Pop | pkg/service/backup/list.go:283-308 | the host's own node first, otherwise one in its location, otherwise nothing, and that group is gone |
| Dispatch.OfNodeInOrder | pkg/service/backup/list.go:259-265 | the first manifest of a group is the first of its node in the list |
| Dispatch.HandedOnce | pkg/service/backup/list.go:283-308 | under every interleaving no node is handed out twice |
| Dispatch.LoopsEnd | pkg/service/backup/worker_purge.go:90-111 | all host loops together take no more turns than there are nodes and hosts |
| Dispatch.AllHandedOut | pkg/service/backup/worker_purge.go:90-111 | if no host fails every listed manifest was handed out, to one host |
| Validation.KindsSplit | pkg/service/backup/purger.go:262-292 | scanned files and their bytes split into matched, temporary, new and orphaned |
| Validation.KindsMean | pkg/service/backup/purger.go:262-292 | with distinct paths the matched are the listed files of complete manifests, the orphans the listed files of no manifest not newer than the start |
| Validation.Validator.Validate | pkg/service/backup/purger.go:236-364 | missing, orphaned and scanned counts, the broken tags; deletes exactly the listed files that no manifest names and that are not newer than the start, in the first manifest's location, but those that fail; succeeds iff none fails, and counts those found |
| Validation.OrphansDeleted | pkg/service/backup/purger.go:315-321 | when storage still holds what was listed, the deleted files are as many as the orphans counted |
| ValidationStore.BrokenExact | pkg/service/backup/purger.go:295-364 | on a full listing a tag is called broken just when a file of it is not stored where its manifest is, iff a manifest at the node listed lacks a file, or manifests elsewhere name a path not found here just when they lack a file there |
| ValidationStore.BrokenInOneLocation | pkg/service/backup/purger.go:332-364 | with all manifests at one node in one location the broken tags are exactly those with a file that is not stored |
| ValidationStore.SecondBucketIsMisreported | pkg/service/backup/purger.go:298-364 | a node backed up to two buckets: the file of the second is stored there, and its tag is called broken |
| ValidationStore.ValidateDrops | pkg/service/backup/purger.go:315-321 | the deletion of a validation is the action that runs have: it takes only files that no manifest of the group names |
| Ring.SortedSorts | pkg/scyllaclient/client_scylla.go:530-537 | sorting a replica set keeps every address and puts them in order |
| Ring.DescribeRing | pkg/scyllaclient/client_scylla.go:496-607 | every range of the response is in exactly one group, groups are sorted by start, one group for each hash; fails iff empty, unparsable or of unequal factor; topology iff all ranges agree on datacenter counts |
| Ring.AllRangesExact | pkg/scyllaclient/client_scylla.go:511-546 | a range is described as often as entries of the response have its start and end |
| Ring.DCCountExact | pkg/scyllaclient/client_scylla.go:553-556 | the datacenters of a range with the number of its replicas in each |
| Ring.HostDCExact | pkg/scyllaclient/client_scylla.go:565-571 | the hosts that the response names, each with the datacenter it is named with last |
| Ring.FiledExact | pkg/scyllaclient/client_scylla.go:535-583 | each group holds exactly the ranges of its replica set iff the hash is injective on the sets that occur |
| Ring.SameHashMisfiles | pkg/scyllaclient/client_scylla.go:539-545 | under one hash for two sets one group holds the ranges of both under the second set |
| Paths.SplitOfGlue | backupspec/paths.go:50-76 | splitting undoes joining for parts free of the separator |
| Paths.CleanIsGood | backupspec/manifest.go:60-61 | the parts of any cleaned path are proper names, unless its first part is none |
| Uuids.ParseOfText | backupspec/manifest.go:67 | the text of a UUID reads back |
| Uuids.ParseMeans | backupspec/manifest.go:67 | whatever reads as a UUID has exactly its 32 digits in order, and dashes |
| Uuids.TextShape | backupspec/manifest.go:67 | the text of a UUID has its digits in order, with dashes before digits 8, 12, 16 and 20 |
| ManifestPaths.ManifestInfo.Read | backupspec/manifest.go:56-85 | resets and fills the receiver; its fields and error are those of ParsePath, also after a failure |
| ManifestPaths.PathParses | backupspec/manifest.go:56-112 | exactly which paths parse, and which field comes from which part |
| ManifestPaths.PartlyParsed | backupspec/manifest.go:56-85 | a path that goes wrong behind the datacenter fails and leaves cluster and datacenter filled in, and all else cleared |
| ManifestPaths.PathText | backupspec/paths.go:50-76 | the path of a manifest part by part |
| ManifestPaths.ParsedIsCarried | backupspec/manifest.go:56-112 | whatever parses has datacenter and node names fit for a path, and a snapshot tag |
| ManifestPaths.PathExact | backupspec/manifest.go:32-112 | parsing a manifest's path gives all fields but the location back iff datacenter and node are fit for a path and the tag is a tag, temporary or not |
| ManifestPaths.DotsDoNotParse | backupspec/manifest.go:32-112 | with a datacenter named ".." the path does not parse |
| ManifestPaths.PathsDiffer | backupspec/manifest.go:32-38 | manifests that differ in more than location have different paths |
| ManifestPaths.Reparsed | backupspec/manifest.go:32-112 | the path printed for parsed fields parses to the same fields |
| SSTableNames.RenameSSTables | pkg/sstable/sstable_naming.go:61-86 | every name is mapped by the new ID of its old one, one new ID for one old; None for a panic, exactly when some name has no ID |
| SSTableNames.LaNames | pkg/sstable/sstable_naming.go:28-43 | in names like me-7-big-TOC.txt the ID is the second part |
| SSTableNames.KaNames | pkg/sstable/sstable_naming.go:28-43 | in names like keyspace1-standard1-ka-1-CRC.db it is the number |
| SSTableNames.UuidNames | pkg/sstable/sstable_naming.go:28-43 | with a UUID any two letters do for the version |
| SSTableNames.RenameKeeps | pkg/sstable/sstable_naming.go:28-86 | a well-formed name gets the new ID, has it read back, and keeps all its other parts |
| SSTableNames.RenameExact | pkg/sstable/sstable_naming.go:28-59 | a name with an ID is renamed right for every new ID iff it begins with a la or mx name |
| SSTableNames.KaLosesItsID | pkg/sstable/sstable_naming.go:45-59 | ks-cf-ka-1-Data.db has ID 1, and no ID any more when renamed to x |
| SSTableNames.RenamedApart | pkg/sstable/sstable_naming.go:61-86 | with an injective generator different files stay different, and share a new ID iff they shared the old |
| Progresses.ParentMeans | pkg/service/backup/progress.go:121-167 | counters are sums over the children, start the earliest, completion the latest if there are children and all are complete |
| Progresses.ClusterMeans | pkg/service/backup/progress.go:131-167 | the same for the cluster, but its completion stays nil |
| Progresses.AggregateProgress | pkg/service/backup/progress.go:29-118 | the tree of hosts, keyspaces and tables: each table as its last row says, bytes, error, start and completion, nil where the row has none, and blank without a row; each parent with the sums, earliest start and latest completion of its children |
| Progresses.HostTimes | pkg/service/backup/progress.go:55-85 | a host's start and completion told from the rows of all its tables; no completion if a keyspace has no tables or a table is not complete |
| Progresses.ProgressConserved | pkg/service/backup/progress.go:29-143 | for distinct rows inside the units the cluster's counters are the sums over all rows |
| ReplicationFactors.QueryDCInfo | pkg/cmd/scylla-manager/db.go:82-120 | the topology counts the nodes by datacenter and by rack, racks adding up |
| ReplicationFactors.ChooseDCRF | pkg/cmd/scylla-manager/db.go:122-185 | the three cases of the choice; on any topology factors between one and the node count, and a total of at least min(3, nodes) |
| ReplicationFactors.ChoiceIsSound | pkg/cmd/scylla-manager/db.go:82-185 | every factor is between one and the node count, and the total is at least min(3, nodes) |
| ReplicationFactors.ChosenByRacks | pkg/cmd/scylla-manager/db.go:122-185 | nodes in three different racks or more: each factor is the number of racks that nodes of the datacenter stand in |
| ReplicationFactors.ChosenForOne | pkg/cmd/scylla-manager/db.go:122-185 | one datacenter of one or two racks gets min(3, nodes) |
| ReplicationFactors.ChosenForTwo | pkg/cmd/scylla-manager/db.go:122-185 | of two datacenters of one rack only one with the most nodes gets two, and it does when it has more than one |

## Left out

- NoTickSkipped: the trigger is assumed to give the least tick at or after an instant, as cron triggers do; it is a parameter of the source. GivingUpExact assumes the same.
- SequencesAlways: windows are those that NewWindow makes, Trigger is not called at the zero time, and all times are whole nanoseconds, as Go's are.
- KeptSnapshotsRestore: tags of a node strictly increase, and only the newest backup of a node uploads, because taking a snapshot deletes all other local ones (pkg/service/backup/worker_snapshot.go:103-125); a backup that begins or uploads while a purge or validation of the same node computes its files is not covered.
- BrokenExact: the listing is taken at one instant and holds the newest files below the node's directory; manifests removed while the validation runs are not covered.
- WorkerPurges: the store is listed at one instant, host turns are atomic though each may stop anywhere, and no backup runs between listing and purge.
- ActKeeps: names of SSTable files do not begin like renamed Scylla manifests, and no listed file has the name of a version.
- PurgeSnapshotTags: schema, unsafe schema and alternator schema files are not deleted in the model.
- DescribeRing: DC token metrics are left out, and xxhash is a parameter.
- HostTimes: times of rows lie strictly between the zero time and the far-future marker of the source.
- ProgressConserved: rows of one key overwrite each other and rows outside of the units are not reported, so both are excluded.
- RenamedApart: the generator is a function of the old ID; the source calls it once for an ID.
- Points of NewWindow from Go callers: `validate` accepts negative times and weekdays above 7, which the types of the model exclude; text gives neither.
- Time zones and daylight saving: instants have a fixed offset, and the sort key of NewWindow orders points within a week.
- Text forms of weekday times, and the `pos` field of a slot, which only error messages read; the model returns the index.
- Sorting by Go's library and removal from its heap are modelled by code with the same contract; equal keys may come in another order, and the lemmas on sorted windows hold for every order.
- Scheduler listeners, contexts, goroutine waiting and the Activations query do not change the modelled state; the main loop's iterations are steps.
- The zero value of K as a queue key: an empty queue is an Option in the model, where the source compares with the zero key.
- Names without extension: VersionedFileCreationTime would panic on them, the model gives an error; the listing pattern for versioned files is left out.
- Broken snapshots are a set, which the source sorts.
- HTTP, rclone, CQL, object storage and metrics: storage is a map, listings are sequences, failures are parameters.
- Byte counters are unbounded integers; int64 overflow of sizes is not modelled.
- Percentages, bandwidth, stages and task properties: single expressions or plumbing.
