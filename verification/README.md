# Verified model of the node plugin's two recovery protocols

The node plugin of this CSI driver keeps two promises that depend on the order in which goroutines, the
bucket, the kernel and the containers move. This project models both and proves them for every order.

**A cache that never expires stays true to its bucket.** geesefs keeps directory listings for years, so
the plugin listens to the bucket of each staged volume and drops the listings that a change outdates.
Events are gathered into bursts, a burst is merged into the directories no other one contains, each drop
climbs to the nearest directory that exists, whole-cache drops coalesce, and while nobody listens the
cache is dropped on a timer.

- `Strings`, `Keys`: byte strings, `listenPrefix`, `changedDir` and `path.Dir`, and what they mean by path
  segments.
- `Outermost`: the in-place sort and the merging of a burst.
- `Coherence`: the protocol as a transition system. One step is one section under the watch's lock, one
  call of `invalidate`, or one move of the bucket, the cache or the stream (`Step`, `Enabled`, `Apply`).
  The directory listings, the undelivered events, the pending directories, every running flush with its
  climb, and the drop runner are its state.
- `StillFlushes`: what a flush drops when nothing else moves. `Drain`: the watch comes to rest under every
  scheduler.
- `WatchObject`: the watch object with its own fields; `View()` is the lock of `Coherence`.
- `Staleness`: the connection loop and its timed drops, in time.

**A mount whose daemon died comes back, in running containers too.** The supervisor detaches the corpse,
mounts again, binds again, remembers the dead device and grafts the new mount over every mount of that
device in other mount namespaces, until none is left.

- `Mountinfo`, `Flags`, `Lines`: the text the kernel, the plugin and the C helper exchange, and the mount
  tables it stands for.
- `Mounts`: mount tables, path resolution, detaching and grafting.
- `Holders`, `Hosts`, `Grafting`: which containers hold dead mounts, the helper, one graft pass. What a pass
  does is one function of the tables and of how each helper call goes (`Grafting.Pass`); the methods are
  proved equal to it.
- `Healing`, `Volumes`, `Slices`, `Records`, `Supervision`: the mounts of a heal, what is remembered of each
  volume, the slices edited in place, the state file and its crash points, and the supervisor object whose
  methods change them.
- `Rounds`: any number of passes, one after the other. `Steadiness`: any run of heals, marks and passes leaves
  each of them what it counts on.
- `Shortfalls`: runs in which a graft pass does less than is documented.

Beside them stand the registry of watch and walk contexts (`Contexts`), the semaphore-bounded parallel
walk (`Walk`) and the semaphore used as a barrier (`TokenBarrier`), all over every interleaving.

## Assumptions about the environment

- A listing is read from the bucket at once. `invalidate(p)` drops the listings of p's subtree; it answers
  ENOENT exactly when p is not in the cached view or not in the bucket, never at the root, and never fails
  otherwise (`Coherence.Found`).
- While a stream is up the server queues every change made since it took the request; a break loses the
  queue. A record that came in was sent after every change before it. Keys are clean: no empty, `.` or `..`
  segment.
- A path lives on the last mount made at or above it; detaching takes what was mounted below since.
- During a graft pass the processes stay, pids differ, and a container has no dead mount twice and none at
  or above another; whatever else is mounted may lie over them (`Mounts.Scattered`). Nothing is mounted
  below a staging path, and a remembered dead device answers no probe (`Grafting.Fit`). Over a run of passes
  (`Rounds`) no device that is grafted dies in the run.
- At first a volume's paths are apart from each other and from other volumes' and each is mounted on once; the
  mounter brings up a device that works (`Steadiness.NodeFit`, `Supervision.HealFit`).
- Writing a file may be torn by a crash; renaming is atomic; both succeed.

## Where the code does not keep what its documentation says

- docs/mount-recovery.md says that a graft that fails is retried every interval, and the device kept until
  then. One that fails after its umount2 took the mount is not retried: `Grafting.FoundAgainIffNotTaken` says
  exactly which holders a later `findHolders` reports, `Rounds.LeftIffNeverTaken` says it for any number of
  passes, and in `Shortfalls.FailedGraftIsForgotten` the pass after the failed graft forgets the device though
  the container has nothing mounted there.
- It says that a device is forgotten once no container holds it. `nsmount-heal` goes on when its umount2
  fails and then answers success, so a device may be forgotten while a container holds it under the clone
  (the run `Shortfalls.CoveredCorpseIsForgotten`). A retry does not help: its umount2 takes the clone
  (`Shortfalls.CoveredCorpseOutlivesTheRetry`). `Grafting.NoHolderLeftIff` and `Rounds.NoHolderLeftIff` say
  when no container holds the device, after one pass and after any number.
- pkg/driver/supervisor.go:58-60 says that a device is kept until each holder has the healed mount. The probe
  of a bare staging directory answers too, and then the host's directory is grafted and the device forgotten:
  `Shortfalls.ForgottenShowsVolumeIff` says when the containers get the volume, and
  `Shortfalls.BareStagingIsGrafted` is a run in which they do not.
- pkg/driver/graft.go:7-14 says that the dead superblock's device is remembered. A heal does that last, so a
  failed remount, whose corpse is detached by then, loses it: a device is newly remembered exactly when the
  remount succeeded and it was mounted there (`Supervision.LearnedIff`), no later heal learns it
  (`Supervision.LostCorpseIsNotLearned`), and the containers keep the dead mount
  (`Supervision.UnrememberedStays`).
- `graftHolders` forgets by `keep` alone. A device that NodeStage or NodePublish marks between the
  snapshot and the commit is forgotten without a graft (`Volumes.MarkedMeanwhileIsForgotten`); the commit
  forgets only what its pass saw exactly when everything remembered by then was in the snapshot
  (`Volumes.CommitForgetsOnlyWhatItSaw`).
- `ensureWatch` is said to start the watch of a volume that has none. It may replace one that was started
  after it looked (`Contexts.ReplacesIffStartedMeanwhile`).

Two failures that nothing promises to notice, and their exact conditions:

- After a failed remount the staging path is a bare directory; its probe meets a dead endpoint, and the
  remount is tried again, exactly when the mount around it is dead (`Healing.FailedRemountIsRetriedIff`,
  `Healing.FailedRemountIsNotRetried`).
- `removeObjectsOneByOne` looks at the listing error when the lister has hardly begun; nil means an emptied
  bucket exactly when the listing gives no error before its last object (`TokenBarrier.NilMeansEmptiedIff`,
  `TokenBarrier.NilWithObjectsLeft`).

## Model

| member | source | states |
|---|---|---|
| `Coherence.EveryStateKeepsInv` | pkg/driver/watch.go:157-311 | in every state of every run with the stream heard, each wrong entry of each cached listing is owed a drop that makes it good -- by an undelivered event, a pending directory, a running flush, or a whole drop due -- and the runner runs exactly while a drop is due |
| `Coherence.EveryQuietStateIsFresh` | pkg/driver/watch.go:19-29 | heard and with nothing left to do, every cached listing is the bucket's |
| `Coherence.EnvironmentIsFree` | pkg/driver/watch.go:19-29 | in the model any object may appear or go at any time and is queued on a stream that is up, any directory be read, any listing go, the stream break and the watch end |
| `Coherence.ListingShows` | pkg/driver/cache.go:94-99 | a directory read from the bucket lists exactly its objects and the directories below it that hold some or have a marker |
| `Coherence.DirExistsIsListed` | pkg/driver/cache.go:94-103 | a directory below the root exists for invalidate exactly when its parent, read from the bucket, lists it |
| `Coherence.FoundIs` | pkg/driver/cache.go:100-113 | invalidate finds the root, and a directory that exists unless a cached listing on the way hides it |
| `Coherence.StepKeepsCoherent` | pkg/driver/watch.go:219-311 | each lock section, drop, climb step and environment move keeps every wrong entry owed, even when the bucket moves between two steps of a climb |
| `Coherence.StepKeepsCoalesced` | pkg/driver/watch.go:269-295 | drops asked while one runs make one more and none is forgotten: drops begun never outnumber those asked, and one begins after the last asked unless it is still due |
| `Coherence.StepKeepsConsistent` | pkg/driver/watch.go:221-295 | there is a runner exactly while dropping is set, dropAgain implies dropping, and a flush timer is armed exactly while directories are pending |
| `Coherence.AncestorCovers` | pkg/driver/watch.go:336-337 | dropping an ancestor makes good every entry that dropping the directory would |
| `Coherence.ChangeIsCovered` | pkg/driver/watch.go:206-217 | creating or removing an object changes only entries that dropping its directory makes good |
| `Coherence.FoundDropIsGood` | pkg/driver/cache.go:94-113 | a drop that finds its directory leaves nothing it covers wrong, not even in the listings above it |
| `Coherence.ClimbKeepsCoherent` | pkg/driver/cache.go:100-113 | each climb step keeps what is owed, whatever it meets |
| `Coherence.MergedDropsTheSame` | pkg/driver/watch.go:249-262 | at one moment, dropping the merged targets one by one leaves exactly the listings that dropping every directory of the burst would, each in any order |
| `Coherence.DropEachTakesTheUnion` | pkg/driver/watch.go:254-262 | drops made in turn, each climbing in the cache the earlier ones left, take together what each would take on its own |
| `Coherence.NearestAfterDrop` | pkg/driver/cache.go:100-113 | a drop leads a later climb deeper only where it took that climb's whole subtree itself |
| `Coherence.Nearest` | pkg/driver/cache.go:104-113 | with nothing moving, the climb ends at the longest ancestor that is found |
| `Drain.ComesToRestFresh` | pkg/driver/watch.go:221-311 | once the bucket is still, under every scheduler and however the cache is filled and evicted meanwhile, a heard watch comes to rest after finitely many steps with every cached listing the bucket's, and so they stay |
| `Drain.SomeSchedulerWorks` | pkg/driver/watch.go:221-311 | such a scheduler exists |
| `Drain.WatchStepIsLower` | pkg/driver/watch.go:221-311 | every step of the watch uses something up: events, the armed timer, merges, whole-drop requests, climbs, runner turns |
| `Drain.NeverStuck` | pkg/driver/watch.go:221-311 | a watch not at rest can always move |
| `Keys.ChangedDirBySegments` | pkg/driver/watch.go:197-217 | for every mount prefix and clean key, changedDir answers iff the key lies strictly below the prefix segment by segment, and then the directory holding it, markers included |
| `Keys.PrefixPathIs` | pkg/driver/watch.go:197-204 | whatever slashes stand around it, a clean prefix listens to its own segments followed by a slash, and an empty one to the whole bucket |
| `Keys.CleanTakesBack` | pkg/driver/watch.go:216-216 | the cleaning that path.Dir does: empty and "." segments stand for nothing and ".." takes back the segment before it |
| `Keys.PathDirIsParent` | pkg/driver/cache.go:111-111 | the climb goes up exactly one segment |
| `Keys.DirPathInvertsDirName` | pkg/driver/watch.go:216-216 | a directory name and its path determine each other, "." being the root: every name is that of its path, and a clean path is what its name stands for |
| `Strings.PrefixBySegments` | pkg/driver/watch.go:349-349 | the string test HasPrefix(d, o+"/") is the proper-prefix test on segments, for all strings |
| `Strings.LessIsBytewise` | pkg/driver/supervisor.go:165-165 | the order of sort.Strings: the first byte that differs decides, and a string comes after its own beginnings |
| `Outermost.Outermost` | pkg/driver/watch.go:336-359 | sorts the burst in place and returns a minimal cover of it: distinct inputs, each input at or below one, none but the root containing another; with the root in the burst it is last, after names sorting before it only |
| `Outermost.KeptIsMinimalCover` | pkg/driver/watch.go:345-358 | the merge keeps a minimal cover whatever order the burst came in |
| `Outermost.ContainsBySegments` | pkg/driver/watch.go:349-349 | the code's covering test is containment of paths |
| `Outermost.Sort` | pkg/driver/watch.go:339-344 | the burst becomes sorted by length, then bytes, and stays the same multiset |
| `Outermost.BeforeIs` | pkg/driver/watch.go:339-344 | that order: shorter names first, then the first byte that differs |
| `WatchObject.Watch.Changed` | pkg/driver/watch.go:219-233 | the lock's fields change as the protocol's delivery says, and the timer is armed only for the first directory of a burst |
| `WatchObject.Watch.TakePending` | pkg/driver/watch.go:236-244 | hands over exactly the pending directories and empties them |
| `WatchObject.Watch.DropAll` | pkg/driver/watch.go:274-282 | starts a runner iff none runs, and otherwise asks it for one more drop |
| `WatchObject.Watch.RunnerNext` | pkg/driver/watch.go:286-292 | goes on iff a drop was asked meanwhile, and leaves dropping set exactly then |
| `WatchObject.PlanFlush` | pkg/driver/watch.go:249-262 | merges the burst into its minimal cover; it asks for a whole drop iff there are more than 64 targets or the root alone, and otherwise drops exactly those targets |
| `Coherence.PlanIs` | pkg/driver/watch.go:249-255 | so does every flush of the protocol: everything for more than 64 targets or the root alone, else its targets in their order |
| `Coherence.EndedDropsNothing` | pkg/driver/watch.go:245-301 | once the watch has ended, a flush that was not planned does nothing and the runner drops nothing |
| `StillFlushes.FlushDropsEach` | pkg/driver/watch.go:254-262 | a flush that runs alone drops, target by target, the subtree of the nearest directory found in what the drops before left, and nothing else |
| `StillFlushes.StillFlushIsExact` | pkg/driver/watch.go:249-262 | so from the burst to its last step a flush that runs alone leaves exactly the listings that dropping for every directory of the burst would |
| `WatchObject.InvalidateNearest` | pkg/driver/cache.go:100-113 | climbs one directory for each ENOENT and stops at the first other answer or at the root; it always ends |
| `Staleness.Listener.Run` | pkg/driver/watch.go:154-195 | over any sequence of Listen calls, the loop never waits unheard until refusedRefresh + listenIdle after the last whole drop, connection or held stretch, nor longer than that after the last record; unless the watch ends, the delay it comes to is `Backoff`, it lasts as long as its calls, its pauses and its drops, and it asks for a drop on each connection, once for each stream that later broke |
| `Staleness.Listener.WaitDropping` | pkg/driver/watch.go:313-334 | waits d, longer only by the time its drops take, unless the watch ends; drops at once if refusedRefresh has passed since the last drop, at most d/60 s + 1 times, and leaves the last drop less than refusedRefresh old |
| `Staleness.Listener.Listen` | pkg/s3/listen.go:64-84 | an unconnected call ends within listenIdle, and a connected one at most listenIdle after its last record |
| `Staleness.MissedChangeIsMadeGood` | pkg/driver/watch.go:23-29 | a change made while nobody listens is followed by a drop or a connection less than 90 s (refusedRefresh + listenIdle) after it |
| `Staleness.SilentChangeIsMadeGood` | pkg/s3/listen.go:64-84 | so is a change made after the last record of a stream that then breaks, at most that long after it |
| `Staleness.Backoff` | pkg/driver/watch.go:166-193 | the delay stays within reconnectMin and reconnectMax |
| `Staleness.BackoffDoubles` | pkg/driver/watch.go:166-193 | after n failures in a row from the start the delay is 1 s doubled n times, 30 s at most |
| `Staleness.BackoffAfter` | pkg/driver/watch.go:170-193 | a stream held for more than 30 s starts the backoff again, so that the next delay is 2 s; anything else doubles the delay, up to 30 s |
| `Staleness.ElapsedAfter` | pkg/driver/watch.go:170-192 | the pause after a call is 5 minutes for a refusal, 1 s after a stream held for more than 30 s, the delay otherwise |
| `Contexts.Registry.StartWatch` | pkg/driver/watch.go:87-104 | for a staged volume the old watch is cancelled and a fresh one listed; live watch contexts are exactly those listed |
| `Contexts.Registry.EnsureWatch` | pkg/driver/watch.go:106-114 | whatever other goroutines do between its two sections, it starts a watch iff the volume had none at the look and is staged at the end, cancelling one started meanwhile; the volumes with a watch then are `Ensured` |
| `Contexts.EnsuredUnlessStopped` | pkg/driver/watch.go:106-114 | a volume staged at the end has a watch then, except exactly when one was seen and others stopped it |
| `Contexts.ReplacesIffStartedMeanwhile` | pkg/driver/watch.go:106-114 | the watch started replaces another exactly when one was started after the look and not stopped |
| `Contexts.Registry.StopWatch` | pkg/driver/watch.go:129-137 | cancels and unlists exactly that volume's watch |
| `Contexts.Registry.Warm` | pkg/driver/cache.go:117-130 | walks of a volume share one live context; an unstaged volume gets none |
| `Contexts.Registry.StopWarm` | pkg/driver/cache.go:146-155 | cancels and unlists exactly that volume's walks |
| `Walk.WalkCounts` | pkg/driver/cache.go:53-92 | warmUp returns only once every walker has; uncancelled it returns the number of readable directories reached through readable ones, once per root; cancelled, never more |
| `Walk.ReachedIsTheNumber` | pkg/driver/cache.go:72-84 | that number for a root is the number of places below it, through readable directories, at which a readable directory lies |
| `Walk.CancelledWalkersLeave` | pkg/driver/cache.go:62-80 | once cancelled, no walker starts another, and one that had not begun lists nothing |
| `Walk.ListingsAreBounded` | pkg/driver/cache.go:45-70 | at every step at most 8 listings run |
| `Walk.EveryState` | pkg/driver/cache.go:53-92 | the semaphore counts the running listings, the WaitGroup the unfinished walkers, and directories counted and still ahead add up to those reachable |
| `Walk.StepUsesUp` | pkg/driver/cache.go:60-85 | every goroutine's step brings the walk nearer its end |
| `Walk.NeverStuck` | pkg/driver/cache.go:64-91 | until warmUp returns some goroutine can move: the semaphore never deadlocks |
| `TokenBarrier.BarrierHolds` | pkg/s3/client.go:270-292 | when the call returns no removal runs, each delivered object was tried exactly once in order, exactly those whose removal worked are removed, and the answer is nil iff all did |
| `TokenBarrier.RemovalsAreBounded` | pkg/s3/client.go:270-280 | at every step at most 16 removals run |
| `TokenBarrier.LookDecides` | pkg/s3/client.go:265-268 | a listing that has failed before the look is returned as an error, with nothing removed |
| `TokenBarrier.EveryState` | pkg/s3/client.go:251-287 | tokens are always running workers plus barrier tokens and at most 16, and every object is listed, queued, in hand or with one worker |
| `TokenBarrier.NilMeansEmptiedIff` | pkg/s3/client.go:251-270 | nil means an emptied bucket iff the listing gives no error before its last object |
| `TokenBarrier.NilWithObjectsLeft` | pkg/s3/client.go:254-270 | a run that answers nil with the object still there, the listing having failed after the look |
| `TokenBarrier.NeverStuck` | pkg/s3/client.go:270-287 | until the call returns some goroutine can move |
| `Mountinfo.MountinfoRoundTrip` | pkg/driver/graft.go:39-59 | reading what the kernel writes gives the mounts back, with any number of optional fields and any escaped bytes in their paths |
| `Mountinfo.ParseMountinfo` | pkg/driver/graft.go:41-59 | reads line by line, keeping the lines with a separator and a type after it |
| `Mountinfo.ParseLineIs` | pkg/driver/graft.go:45-57 | a line is read iff a "-" stands after its first six fields and the first such is not the last field; which fields become which |
| `Mountinfo.FieldsArePartedBySpace` | pkg/driver/graft.go:44-44 | white space anywhere parts the fields before it from those after it |
| `Mountinfo.PlainIsOneField` | pkg/driver/graft.go:44-44 | a word without white space is one field, and an empty string has none |
| `Mountinfo.OctalStandsForByte` | pkg/driver/graft.go:69-75 | a backslash and the three octal digits of any byte stand for that byte |
| `Mountinfo.OthersStandForThemselves` | pkg/driver/graft.go:76-76 | a backslash before anything else stands for itself, at the end of the string too |
| `Mountinfo.UnescapeInvertsEscape` | pkg/driver/graft.go:61-79 | unescaping inverts the kernel's escaping of every byte string |
| `Mountinfo.UnescapeMount` | pkg/driver/graft.go:63-79 | the loop and its shortcut compute that unescaping |
| `Flags.FlagsSurvive` | cmd/nsmount-heal/heal.c:78-91 | mount_flags accepts whatever graftFlags emits and yields exactly the restrictions the options name |
| `Flags.RestrictionsMeanWords` | cmd/nsmount-heal/heal.c:83-86 | a bit is set iff its word is among the options |
| `Flags.GraftFlags` | pkg/driver/graft.go:149-160 | keeps the four flag words of the options, in order |
| `Flags.FlagWordsAreTheFour` | pkg/driver/graft.go:151-158 | those are ro, nosuid, nodev and noexec, and no other word is kept |
| `Flags.MountFlags` | cmd/nsmount-heal/heal.c:78-91 | gathers the bits token by token, or refuses an unknown one |
| `Flags.MountFlagsIs` | cmd/nsmount-heal/heal.c:78-91 | it refuses a list iff a word between its commas is neither empty nor one of the four, and otherwise answers all their bits |
| `Holders.FindHolders` | pkg/driver/graft.go:111-147 | reports what the first readable process of each foreign namespace shows of the dead devices, in order |
| `Holders.HoldersInOrder` | pkg/driver/graft.go:124-144 | the holders stand in the order of /proc, and those of one process in the order of its mounts |
| `Holders.HoldersExact` | pkg/driver/graft.go:111-147 | over a still /proc each readable foreign namespace is reported through exactly one process, with precisely its FUSE mounts of dead devices |
| `Holders.OneSpeaker` | pkg/driver/graft.go:131-139 | a process that cannot be read never hides its namespace, and one that can speaks for it alone |
| `Mounts.ElsewhereUnmoved` | cmd/nsmount-heal/heal.c:122-128 | neither the umount2 nor the move_mount touches a mount that is not at or below the target, nor what its path shows |
| `Mounts.DetachTakes` | cmd/nsmount-heal/heal.c:123-124 | a path lives on the last mount made at or above it, and detaching takes that mount if it is at the path itself, with those made at or below the path after it, and nothing else |
| `Mounts.DetachTakesShown` | cmd/nsmount-heal/heal.c:123-124 | detaching at a dead mount's point takes it iff it is what the point shows; a mount over it is taken in its stead |
| `Mounts.MountDevice` | pkg/driver/graft.go:81-95 | the loop over the mount table computes `DeviceAt` |
| `Mounts.DeviceIsTopmost` | pkg/driver/graft.go:81-95 | which is the device of the last mount at the path, and none where nothing is mounted |
| `Hosts.Host.NsmountHeal` | cmd/nsmount-heal/heal.c:93-131 | what it answers and does to the tables is `Run`: the restricted clone takes the place of what the target shows, or covers it when the umount2 fails, and a failure leaves the target as it was or detached |
| `Hosts.RunPutsClone` | cmd/nsmount-heal/heal.c:100-129 | when the helper answers success, the container finds at the target a mount of the device that the source shows, with its root at the source, restricted as the source's mount is and as the flags say besides |
| `Hosts.RestrictionsReachTheHelper` | pkg/driver/graft.go:216-221 | the flags passed make the helper restrict the clone exactly as the mount it replaces |
| `Lines.TableIsRead` | pkg/driver/graft.go:39-59 | reading the lines that the kernel writes for a mount table, whatever other options they show, gives that table back: the mounts that findHolders and mountDevice work on |
| `Grafting.TryGraft` | pkg/driver/graft.go:216-228 | the helper runs on the holder's subPath below the staging path, with exactly the holder's restrictions |
| `Grafting.GraftAll` | pkg/driver/graft.go:212-229 | the loop leaves the tables, the helper calls made and the devices kept back as `Turns` says |
| `Grafting.RunTreats` | cmd/nsmount-heal/heal.c:93-131 | a call for a holder leaves its mount in the container iff no umount2 took it, and if it works the container finds the replacement there |
| `Grafting.RunKeepsScattered` | cmd/nsmount-heal/heal.c:93-131 | a call leaves the containers' dead mounts apart and brings none |
| `Grafting.AllStand` | pkg/driver/graft.go:212-229 | after any number of turns each holder stands as its own turn left it, and the node's table is untouched |
| `Grafting.PassReplaces` | pkg/driver/graft.go:206-229 | for a device not kept back, each container finds, where it had a mount of it, one of the device that the staging shows, at the same subPath and restricted as both mounts were; and no path of a container meets one |
| `Grafting.GraftedRestricts` | pkg/driver/graft.go:149-160 | so a read-only mount is replaced by a read-only one, and no restriction of either mount is lost |
| `Grafting.PassKeepsExactly` | pkg/driver/graft.go:197-229 | the devices kept back are all of them without a helper, else exactly those whose staging is dead and those with a holder that the helper failed on |
| `Grafting.HealthyPassKeepsNone` | pkg/driver/graft.go:197-229 | with stagings that are mounted and answer and a helper that works, none is |
| `Grafting.HoldersAreAllHeld` | pkg/driver/graft.go:114-147 | what findHolders reports is every dead FUSE mount of every visible namespace, each once |
| `Grafting.FoundAgainIffNotTaken` | pkg/driver/graft.go:222-229 | after a pass, a later findHolders reports a dead mount again iff no umount2 took it: a failed graft is retried exactly when the helper stopped before its umount2, or that failed, or it took another mount that lay over this one |
| `Grafting.ShownAsAtFirst` | pkg/driver/graft.go:212-229 | whether another mount lies over a holder's mount at its turn can be seen when the pass begins |
| `Rounds.RoundsKeepScattered` | pkg/driver/supervisor.go:199-213 | any number of passes leave the dead mounts apart, so each may start as the first did |
| `Rounds.LeftIffNeverTaken` | pkg/driver/supervisor.go:199-213 | over any number of passes, with heals between, a container is rid of a dead mount iff the umount2 of some turn took it |
| `Rounds.NoHolderLeftIff` | pkg/driver/graft.go:162-162 | after any number of passes no container holds a device iff each mount of it was taken in one |
| `Grafting.NoHolderLeftIff` | pkg/driver/graft.go:162-162 | no container holds a device after a pass iff the umount2 of each of its holders' turns took the mount |
| `Shortfalls.FailedGraftIsForgotten` | pkg/driver/graft.go:182-229 | a run: the graft fails after its umount2, and the next pass forgets the device though the container has nothing mounted |
| `Shortfalls.CoveredCorpseIsForgotten` | cmd/nsmount-heal/heal.c:123-128 | a run: the umount2 fails, the device is forgotten and the container holds it still |
| `Shortfalls.CoveredCorpseOutlivesTheRetry` | pkg/driver/graft.go:182-229 | a run of two passes: the retry's umount2 takes the clone that the first left, every helper works, and the device is forgotten with the covered mount still held |
| `Shortfalls.ForgottenShowsVolumeIff` | pkg/driver/graft.go:206-221 | the containers of a forgotten device get the volume iff the staging path was a mount point at the pass |
| `Shortfalls.BareStagingIsGrafted` | pkg/driver/graft.go:206-221 | a run: with a bare staging directory the container gets the host's directory and the device is forgotten |
| `Healing.DetachAll` | pkg/driver/supervisor.go:413-419 | nothing stays mounted at the staging path or the targets, and nothing elsewhere is touched |
| `Healing.BindsShow` | pkg/driver/supervisor.go:427-434 | every bind that succeeds shows the new device, at its root, unrestricted, and of the staging's type; the staging path keeps showing it, and nothing elsewhere is touched |
| `Healing.BindAll` | pkg/driver/supervisor.go:427-434 | the loop leaves the node's table as that sequence of binds, and the other tables as they were |
| `Healing.FailedRemountIsRetriedIff` | pkg/driver/supervisor.go:421-425 | after a failed remount the probe of the staging path meets a dead endpoint iff the mount around the heal's paths was dead before |
| `Healing.FailedRemountIsNotRetried` | pkg/driver/supervisor.go:421-425 | two dead volumes: after the failed remount of one its probe answers, the other's does not |
| `Supervision.LearnedIff` | pkg/driver/supervisor.go:412-436 | a heal newly remembers a device iff its remount succeeded and the last mount at the staging path was of that device |
| `Supervision.LostCorpseIsNotLearned` | pkg/driver/supervisor.go:412-424 | after a failed remount no later heal learns the corpse's device |
| `Supervision.UnrememberedStays` | pkg/driver/graft.go:187-229 | a device that is not remembered stays where the containers have it, whatever a pass does |
| `Supervision.Supervisor.Heal` | pkg/driver/supervisor.go:411-438 | a heal whose remount succeeds leaves the staging path and every bound target on the new device, the corpse nowhere among them and other volumes' mounts alone; the old device is remembered, and a graft pass is made from there |
| `Healing.RemountIsTidy` | pkg/driver/supervisor.go:413-434 | after the mounts of a heal no mount lies over another at its paths, nor at any path beside them where none did |
| `Steadiness.EveryStateIsSteady` | pkg/driver/supervisor.go:364-438 | in every state of every run of heals, failed heals, marks and passes, with mounters dying at any time, each operation finds what it counts on |
| `Steadiness.HealedNodeIsSteady` | pkg/driver/supervisor.go:411-438 | a node whose volume was healed once, its dead device remembered and held by a container, is such a state |
| `Steadiness.SteadyIsFitForHeal` | pkg/driver/supervisor.go:411-438 | then the heal of any volume may start: its guarantees hold |
| `Steadiness.SteadyIsFitForPass` | pkg/driver/graft.go:182-247 | and so may a graft pass |
| `Supervision.Supervisor.GraftHolders` | pkg/driver/graft.go:182-247 | tables, helper calls and remembered devices are exactly what `Pass` makes of a snapshot; a crash recovers the volumes before or after |
| `Supervision.PassIsOffHands` | pkg/driver/graft.go:182-229 | a device that a pass forgets had a staging that answered, each container finds what that staging shows in its place, and no path meets it |
| `Supervision.HealthyPassForgetsAll` | pkg/driver/graft.go:182-247 | with stagings that are mounted and answer and a helper that works, every device is forgotten and met by no container |
| `Supervision.GraftPass` | pkg/driver/graft.go:197-229 | the part between the two sections does what `Pass` says |
| `Supervision.Supervisor.Snapshot` | pkg/driver/graft.go:187-196 | collects every remembered device with the staging path of a volume that remembers it |
| `Supervision.Supervisor.Commit` | pkg/driver/graft.go:230-246 | forgets exactly what is not kept back, writes nothing when nothing changes, and a crash recovers the volumes before or after |
| `Supervision.Supervisor.RecordStage` | pkg/driver/supervisor.go:129-141 | re-staging keeps publishes and dead devices; a crash at any point recovers the volumes before or after |
| `Supervision.Supervisor.ForgetStage` | pkg/driver/supervisor.go:143-150 | the volume is gone from memory and file; a crash recovers the volumes before or after |
| `Supervision.Supervisor.RecordPublish` | pkg/driver/supervisor.go:152-167 | the target is added once, in place; the early returns leave file and memory equal |
| `Supervision.Supervisor.ForgetPublish` | pkg/driver/supervisor.go:169-184 | the target is removed in place, no copy taken by checkAll changes, and a crash recovers the volumes before or after |
| `Supervision.Supervisor.CopyVolumes` | pkg/driver/supervisor.go:364-372 | checkAll's copies equal the volumes and their publishes lie in arrays of their own |
| `Supervision.Supervisor.MarkDead` | pkg/driver/graft.go:162-180 | the device is added once; the early returns leave file and memory equal |
| `Supervision.Supervisor.Persist` | pkg/driver/supervisor.go:113-127 | what the state file holds at each crash point is the old volumes or the new |
| `Supervision.Supervisor.constructor` | pkg/driver/supervisor.go:99-111 | a restart knows what the state file decodes to, nothing if it is missing or corrupt |
| `Supervision.KeepingAllKeepsVols` | pkg/driver/graft.go:197-205 | the early returns of a pass change nothing |
| `Volumes.PublishesAreThoseRecorded` | pkg/driver/supervisor.go:129-184 | over any run the publishes of a volume are sorted, free of duplicates, and exactly the targets recorded and not forgotten |
| `Volumes.DeadAreThoseMarked` | pkg/driver/graft.go:162-180 | over any run a device is remembered as dead iff it was marked while the volume was staged and since then no pass dropped it and nothing unstaged the volume; staging again drops none; none is there twice |
| `Volumes.RestIsAsLastStaged` | pkg/driver/supervisor.go:129-141 | over any run the staging path, context, secrets and rewarm of a volume are those of its last staging |
| `Slices.FilterInPlace` | pkg/driver/supervisor.go:176-182 | filters in the slice's own backing array and writes no other |
| `Slices.SinkLast` | pkg/driver/supervisor.go:164-165 | sort.Strings after an append: the last element moves to its place, in place |
| `Slices.Lists.AddSorted` | pkg/driver/supervisor.go:164-165 | one volume's publishes get the target in order; the others' slices keep their elements and share no array with it |
| `Volumes.ForgottenExactly` | pkg/driver/graft.go:230-246 | the commit forgets a remembered device iff it is not kept back |
| `Volumes.CommitForgetsOnlyWhatItSaw` | pkg/driver/graft.go:186-246 | the commit forgets only devices its pass looked at iff every device remembered by then was in the snapshot |
| `Volumes.MarkedMeanwhileIsForgotten` | pkg/driver/nodeserver.go:197-200 | a device marked during another pass is forgotten though that pass never looked for it |

## Left out

- Bytes: Go strings are modelled by characters that stand for bytes; text with Unicode white space beyond ASCII, which `strings.Fields` also splits on, is outside `Mountinfo`.
- HTTP, signing, JSON and TLS of `Listen` and of the state file: only the event source and the stored value are kept; a nil slice and an empty one are the same value.
- Writes and renames of the state file that fail without a crash: the plugin logs them and goes on with an older file.
- `invalidate` failing other than with ENOENT: the code logs it and does not try again.
- Credential resolution before the first `Listen`: nothing is dropped during it.
- Supervision.Supervisor.Heal: the stopWarm and startWatch calls are modelled in `Contexts`, not inside the heal.
- Supervision.Supervisor.GraftHolders: the passes are serialised with marking, because the code is not sound otherwise (see above).
- Slices.SinkLast: sort.Strings is a library call, modelled for the slice it gets, sorted but for its last element.
- Supervision.Supervisor.Commit: the dead devices of a volume are a value; only the publishes, which checkAll copies, are slices over arrays.
- Outermost.Sort: sort.Slice is a library call, modelled by an insertion sort with the same result.
- `checkAll`'s loop, `discover`, mount propagation and the recursive cloning of mounts below a staging path.
- gRPC handlers, argument checks, COSI and Kubernetes lookups, mounter processes, systemd units, logging and deployment files.
- `sanitizeVolumeID`, `volumeIDToBucketPrefix`, access modes and the option regexes: they would only add easy members.
