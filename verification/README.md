# A verified model of the PowerMax CSI driver's own decisions

The driver talks to PowerMax arrays through Unisphere. This project models the
parts of it that decide something on their own, and treats every answer of an
array as an arbitrary input. It is written in Dafny 4.11;
`dafny verify dfyconfig.toml` checks it.

There are four groups.

**The FIFO lock manager** (`service/locks.go`). `LockTable.dfy` has the effect of
one handler iteration as a function, the simple form it implements (one queue per
resource, whose head holds the lock) and the shared table of entry objects.
`LockProtocol.dfy` is the state machine of clients, handler and cleanup worker in
every interleaving, with its inductive invariant. `LockTheorems.dfy` has what
follows for every reachable state and every run.

**The deletion worker** (`service/deletion_worker.go`, and the names it works with
in `service/controller.go`). `Hex.dfy` and `DeviceRanges.dfy` turn checked devices
into ranges. `DeletionSpec.dfy` is the per-device state machine as functions,
`DeletionQueue.dfy` the queue and its devices as objects. `DeletionSteps.dfy` says
what each step does to each device by what the array answered, `DeletionRounds.dfy`
what holds of repeated deletion rounds, `DeletionRuns.dfy` what holds of whole runs.
`DeletionNames.dfy` is about the names that mark a volume.

**Capacity-based array selection with failover** (`service/capacity_selection.go`,
`service/capacity_poller.go`, the retry loop in `service/controller.go`).
`CapacityCache.dfy` has the cache, the poll cycle and what the cached fields mean
in terms of the history. `ArraySelection.dfy` has the choice and the retry loop.
`Provisioning.dfy` interleaves requests, polls and invalidations on one cache.

**Codecs, naming and sizes** (`service/controller.go`, `service/node.go`,
`service/csiaddons_helpers.go`): `PublishContext.dfy`, `VolumeHandle.dfy`,
`DynamicStorageGroup.dfy`, `VolumeSize.dfy`, `RemoteIdentifiers.dfy`,
`ReplicationNames.dfy`, on top of `Strings.dfy`, `Sequences.dfy`, `Decimal.dfy`,
`Sorting.dfy` and `Options.dfy`.

## How the environment appears

- Answers of the arrays, of Kubernetes and of the clock are parameters. Where one
  step asks about several devices, the parameter is a function of the device (or
  of the position in a list), so that nothing is assumed about the answers.
- A clock reading is an integer; the cleanup worker's time slice is a number of
  visits; a stale cache entry is a Boolean answer per device.
- Lock numbers are drawn at random from the non-negative integers
  (`service/locks.go:178-182`). The protocol assumes only that calls live on one
  resource at the same time have different numbers, and that a client releases
  what it holds.
- Device identifiers are five upper-case hexadecimal digits where a theorem says
  so; `OutcomeNeedsCanonicalID` shows what happens to others.
- A history of the cache has one poller, which compares each value it records
  before it polls the next array; requests come in between at any moment.
- Errors of the arrays have a non-empty text where a theorem says so
  (`ErrorsHaveText`): an empty text is not counted as an error by the driver.
- Strings are sequences of one-byte characters. Utilisation and pool capacities
  are real numbers.

## Where the code does not do what it is meant to do

Each of these is a theorem with its exact condition and an input or a run that
shows it.

- The lock handler stops for good, on all resources, when a 101st request has to
  wait for one resource: it blocks on the full channel while holding the mutex
  (`BlockedExactlyWhenFull`, `BlockedForever`, `BlockedIsReachable`).
- A queue entry with a non-canonical device identifier is never told that its
  volume was deleted (`OutcomeNeedsCanonicalID`, `OtherIDsAreNeverMarked`,
  `LowerCaseIsAccepted`).
- A device that used up its error budget goes back to work if the same step gets
  it out of its last storage group (`RemoveBudgetExactly`, `BudgetIsExceeded`).
- A tenant-prefixed volume whose marked name had to be cut off is not recognised
  by a retried delete, which then takes it for deleted
  (`RetryRecognisesCutOffExactly`, `RetryDecision`, `CutOffExample`).
- The name of a soft-deleted snapshot source is 65 characters long for volume
  names of 62 characters or more (`SoftDeletedFitsExactly`,
  `SoftDeletedExample`).
- A handle with a colon in the array part and none in the device part crashes the
  parser (`CrashesExactly`, `CrashExample`).
- A replication group number and mode of 44 characters together yield a storage
  group name of 65 characters, and of 45 or more a crash (`BuildsExactly`,
  `TooLongExample`).

Where a comment and the code disagree, the model follows the code: the handle
parser splits at dashes and does not rely on the fixed trailer of 19 characters its
comment describes (`service/controller.go:1584-1590`); the storage group name
reserves room for three dashes although only two follow the variable part
(`service/csiaddons_helpers.go:203-205`); and choosing a storage group never fails
for exceeded limits (`service/controller.go:333-336`).

## Model

| member | source | states |
|---|---|---|
| LockSpec.LockAppends | service/locks.go:66-132 | a lock request joins the end of its resource's queue and no other queue changes; it is granted at once exactly when the queue was empty; it blocks the handler exactly when a holder and 100 waiters are there |
| LockSpec.HolderIsNotGrantedAgain | service/locks.go:86-123 | a lock request under the number of the holder changes nothing and sends nothing |
| LockSpec.UnlockPops | service/locks.go:86-117 | an unlock by the head removes it, closes its channel and grants the next one; any other unlock changes nothing |
| LockSpec.CleanupIsInvisible | service/locks.go:154-163 | deleting idle entries changes no queue |
| LockHandler.LockTable.HandleRequest | service/locks.go:61-140 | one handler iteration on the shared entry objects changes the table and performs the channel operations exactly as specified |
| LockHandler.LockTable.Cleanup | service/locks.go:143-168 | removes only idle entries, leaves all others, and with enough time removes every idle entry |
| LockProtocol.StepKeepsInv | service/locks.go:61-199 | every step of any client, of the handler and of cleanup keeps the protocol invariant |
| LockProtocol.RunKeepsInv | service/locks.go:61-199 | so does every run, together with the order of grants |
| LockTheorems.MutualExclusion | service/locks.go:170-199 | in every reachable state at most one client per resource is between RequestLock and ReleaseLock |
| LockTheorems.ChannelDiscipline | service/locks.go:84-123 | each request's channel gets at most one token and is closed at most once, after its token and after its client released; no token follows the close |
| LockTheorems.GrantsFollowArrivals | service/locks.go:61-140 | the calls granted so far are the first arrivals in order, and the remaining arrivals are the waiters in order |
| LockTheorems.NobodyIsLost | service/locks.go:102-106 | a client still blocked has its request in the queue or in its resource's line, the head of a line has its token, and idle entries have no waiters |
| LockTheorems.GrantedAtKthUnlock | service/locks.go:88-106 | over every run, the k-th waiter has its token exactly from the k-th matching unlock on, and stands k minus that many places behind the holder until then |
| LockTheorems.BlockedExactlyWhenFull | service/locks.go:124-131 | the handler is stuck exactly when the next request is a lock request for a resource with a holder and 100 waiters |
| LockTheorems.BlockedForever | service/locks.go:124-136 | once stuck it is stuck in every continuation: nothing is served and whoever waits without a token waits forever |
| LockTheorems.BlockedTakesManyCalls | service/locks.go:76-76 | it takes at least 102 outstanding calls on one resource |
| LockTheorems.BlockedIsReachable | service/locks.go:76-130 | and with 102 calls it happens |
| Hex.ParseInvertsPrint | service/deletion_worker.go:1112-1177 | every integer, negative ones included, is parsed back from its printed identifier exactly when it has 64 bits; every other one is refused |
| Hex.ParsesExactly | service/deletion_worker.go:1166-1177 | of all strings exactly those are parsed that are a sign or none and hexadecimal digits of a 64-bit value, one zero in front being dropped; and this is the value |
| Hex.PrintInvertsParse | service/deletion_worker.go:1112-1177 | every five-digit upper-case identifier parses, and prints back to itself |
| Hex.PrintIsInjective | service/deletion_worker.go:1112-1118 | no two integers print alike |
| DeviceRanges.DeviceRange.GetDeviceIDs | service/deletion_worker.go:1112-1118 | lists the identifiers from start to end of the range, in order |
| DeviceRanges.GetDeviceRanges | service/deletion_worker.go:1120-1155 | cuts any list into its maximal stretches of successive identifiers |
| DeviceRanges.RangesCoverExactly | service/deletion_worker.go:1120-1155 | the ranges cover exactly the integers of the devices given |
| DeviceRanges.RangesAreApart | service/deletion_worker.go:1120-1155 | on distinct sorted devices the ranges are ordered with a gap between any two |
| DeviceRanges.ChooseRange | service/deletion_worker.go:713-728 | the chosen range is a real one, contains the last eligible device in queue order, covers only eligible devices and cannot be extended by one |
| DeviceRanges.ChosenIsUnique | service/deletion_worker.go:713-728 | on distinct devices that description admits one range only |
| DeletionQueue.CsiDevice.constructor | service/deletion_worker.go:872-896 | the state a device is queued in follows from the volume: in storage groups, linked by snapshots, or neither |
| DeletionQueue.CsiDevice.UpdateStatus | service/deletion_worker.go:209-232 | state, error count and the last five messages after an update; the hundredth error makes the device maxed out |
| DeletionQueue.CsiDevice.GetOrUpdateVolume | service/deletion_worker.go:181-199 | the cached volume is used unless it is missing, stale or refresh is forced; a failed refresh empties the cache |
| DeletionQueue.Queue.QueueDeviceForDeletion | service/deletion_worker.go:234-248 | appends the device exactly when its identifier is not queued yet, and keeps identifiers distinct |
| DeletionQueue.Queue.CleanupSnapshots | service/deletion_worker.go:378-442 | the whole new list and the answer of the step, with its limit of five and its stop at the first failed lookup |
| DeletionQueue.Queue.RemoveVolumesFromStorageGroup | service/deletion_worker.go:444-621 | the whole new list and the answer of the step: the batch gathered for one storage group and the refresh of its devices |
| DeletionQueue.Queue.PickGroupFor | service/deletion_worker.go:473-496 | the first storage group outside masking views; each one passed over costs the device an error |
| DeletionQueue.Queue.GetDevice | service/deletion_worker.go:623-630 | finds the device with the identifier, or reports that none is queued |
| DeletionQueue.Queue.DeleteVolumes | service/deletion_worker.go:632-753 | checks every ready device, passes one range to the array, and gives its outcome to the entries it names; the answer says whether any device was eligible |
| DeletionQueue.Queue.PruneDeletionQueue | service/deletion_worker.go:770-790 | in-place pruning leaves exactly the surviving objects in their order |
| DeletionQueue.Perform | service/deletion_worker.go:917-985 | every operation of the worker on the queue of devices has exactly the effect that runs are made of |
| DeletionSteps.QueuedAsItStands | service/deletion_worker.go:872-896 | a device is queued without errors, with the volume fetched, waiting for its storage groups, else for its snapshots, else ready, exactly as that volume calls for |
| DeletionSteps.ErrorsAreRemembered | service/deletion_worker.go:209-232 | after any number of errors a new device has them all counted, holds the last five messages, and is maxed out exactly from the hundredth on |
| DeletionSteps.CleanupExactly | service/deletion_worker.go:378-442 | the snapshot step works on a device exactly when no lookup before it failed and fewer than five devices before it were unlinked; what becomes of the device, by the cached or fetched volume and the answers to unlinking and looking again |
| DeletionSteps.CleanupReports | service/deletion_worker.go:378-442 | it reports progress exactly when some device was unlinked and no lookup it got to failed |
| DeletionSteps.PickGroupExactly | service/deletion_worker.go:473-496 | the group picked is the first one the array shows in no masking view; each one passed over with a message costs one error, and the hundredth makes the device maxed out |
| DeletionSteps.BatchExactly | service/deletion_worker.go:455-508 | the batch is the first free group of the first device that has one, and exactly the first thousand devices from there on whose volume is in that group under the queued identifier; what becomes of every device meanwhile |
| DeletionSteps.BatchIsInItsGroup | service/deletion_worker.go:473-508 | no volume is taken out of a group it was not seen in, under another identifier, or out of a group in a masking view |
| DeletionSteps.RemoveExactly | service/deletion_worker.go:444-621 | exactly the devices of the batch are looked up again once the removal was tried, and wait for what the volume then seen calls for |
| DeletionSteps.RemoveReports | service/deletion_worker.go:444-621 | nothing is removed exactly when no device offers a group; what the step reports |
| DeletionRounds.FiveDigitsAreCanonical | service/deletion_worker.go:1166-1177 | identifiers as the array prints them are canonical |
| DeletionRounds.OnlyCheckedDevicesAreDeleted | service/deletion_worker.go:674-745 | every device named by the range passed to the array was checked in that same round: no storage groups, identifier equal to the queued one |
| DeletionSteps.OnlyFreeVolumesAreDeleted | service/deletion_worker.go:674-745 | every device named by the range was ready, and the bulk listing, or without an entry there the lookup of that round, showed its volume in no storage group and under the queued identifier |
| DeletionSteps.RangeIsAroundLastFree | service/deletion_worker.go:713-728 | the range holds the last such device of the queue, only such devices, and every one next to it |
| DeletionSteps.TextOfRange | service/deletion_worker.go:1096-1101 | the text for a range is its first and last member with a dash between, one member alone, and is cut at dashes into just these |
| DeletionSteps.TextNamesTheEnds | service/deletion_worker.go:729-745 | so is every text the array is asked to delete |
| DeletionSteps.RoundExactly | service/deletion_worker.go:632-753 | what a round makes of every device, by the bulk listing, the lookup and the outcome of the deletion |
| DeletionRounds.RoundOutcome | service/deletion_worker.go:674-745 | exactly the checked devices inside the range get the outcome of the deletion, every other device is only checked |
| DeletionRounds.OutcomeNeedsCanonicalID | service/deletion_worker.go:734-745 | a checked device in the range, whatever its integer, gets the outcome exactly when its identifier is canonical |
| DeletionRounds.OtherIDsAreNeverMarked | service/deletion_worker.go:729-745 | a lone device with another identifier has its volume deleted and stays ready for deletion |
| DeletionRounds.LowerCaseIsAccepted | service/deletion_worker.go:1166-1177 | the identifier 0001a is such an identifier: accepted, and not canonical |
| DeletionRounds.RoundMakesProgress | service/deletion_worker.go:632-753 | while a device is ready for deletion, each round lowers the sum over ready devices of 1 + max(0, 100 - errors), whatever the array answers |
| DeletionRounds.QueueDrains | service/deletion_worker.go:632-753 | after at most that many rounds no device is ready for deletion |
| DeletionRounds.MeasureBound | service/deletion_worker.go:209-232 | that is at most 101 rounds per queued device |
| DeletionRuns.StepKeepsPlaces | service/deletion_worker.go:378-753 | what a step may do to a device: keep it in place, leave terminal devices alone, change its cache only to an answer of that step, make it ready only on a cached volume without storage group and link, make it deleted only by a successful deletion that checked it |
| DeletionRuns.StepExactly | service/deletion_worker.go:378-753 | what each operation of a run does to each queued device, by what the array answered |
| DeletionRuns.TerminalUntilPruned | service/deletion_worker.go:770-790 | deleted, maxedOut and skipDelete are left only by pruning |
| DeletionRuns.PrunedMembers | service/deletion_worker.go:770-790 | pruning keeps exactly the devices that wait for storage groups, snapshots or deletion, and keeps identifiers distinct |
| DeletionRuns.PruningKeepsOrder | service/deletion_worker.go:770-790 | the survivors of a list are those of any front part followed by those of the rest |
| DeletionRuns.RunKeepsQueue | service/deletion_worker.go:234-248 | at every moment of every run device identifiers in the queue are distinct |
| DeletionRuns.EntryLife | service/deletion_worker.go:181-248 | at every moment of every run each entry was put by some request into a queue that did not hold its device, has stayed there since, and the volume in its cache is an answer the array gave since |
| DeletionRuns.ReadyMeansObserved | service/deletion_worker.go:428-433 | an entry ready for deletion was queued by one operation of the run; a later or the same one was told by the array that its volume is in no storage group and no link; an operation from then on went by that answer and made it ready; it has stayed queued and ready since |
| DeletionRuns.DeletedMeansDeleted | service/deletion_worker.go:729-745 | an entry marked deleted was made so, while queued under the same handle and ready, by an operation that saw its volume in no storage group and deleted a range naming it without error; it has been in the queue, unchanged, ever since |
| DeletionRuns.DeletionStory | service/deletion_worker.go:378-753 | both for one and the same entry, in that order: queued, seen free, ready until the deletion, deleted since |
| DeletionRuns.CleanupKeepsBudget | service/deletion_worker.go:209-232 | in the snapshot step a device reaching 100 errors ends up maxed out |
| DeletionRuns.DeleteKeepsBudget | service/deletion_worker.go:209-232 | so it does in the deletion step |
| DeletionRuns.RemoveBudgetExactly | service/deletion_worker.go:598-616 | in the storage group step it does so unless the removal succeeds and the refreshed volume has no storage group |
| DeletionRuns.BudgetIsExceeded | service/deletion_worker.go:606-611 | for every canonical device there is a run from the empty queue after which it has a hundred errors and is ready for deletion |
| DeletionNames.MatchMeans | service/controller.go:2288-2300 | an identifier matches a name exactly when it is the name, bare or behind at most three characters and a dash |
| DeletionNames.MarkedIsLiveExactly | service/controller.go:3827-3832 | a marked volume still matches its name exactly when the name is 64 characters of deletion and tenant prefix, repeated |
| DeletionNames.MarkedIsNotLive | service/controller.go:1791-1791 | so no volume named by the driver is live after marking |
| DeletionNames.RetryRecognisesMarked | service/controller.go:1795-1800 | a retried delete recognises the mark when the identifier has at most 60 characters or no tenant prefix |
| DeletionNames.RecognisesExactly | service/controller.go:1795-1800 | of all identifiers a retry recognises exactly the marked name, bare or behind a tenant prefix, the marked name cut off, and that behind anything and a dash |
| DeletionNames.RetryRecognisesCutOffExactly | service/controller.go:1795-1800 | for longer tenant-prefixed names it does so only for the tenant csi and names repeating csi- |
| DeletionNames.RetryDecision | service/controller.go:1791-1816 | what a retried delete decides for bare and tenant-prefixed volumes, before and after marking |
| DeletionNames.CutOffExample | service/controller.go:1791-1816 | the tenant abc and a name of 60 characters: deleted when unmarked, taken for deleted once marked |
| DeletionNames.MarkedIsQueuedAndFound | service/deletion_worker.go:128-179 | a marked volume of this cluster, bare or behind a tenant prefix, is accepted by the queue and found by the restart scan, cut off or not |
| DeletionNames.FoundExactly | service/deletion_worker.go:128-142 | of all identifiers the restart scan finds exactly those with the deletion prefix in front of csi-, the cluster prefix and anything, or in front of one to three characters, a dash and the same |
| DeletionNames.OtherClusterExample | service/deletion_worker.go:128-142 | a marked volume of cluster XYZ is not found by cluster ABC |
| DeletionNames.QueuedExactly | service/deletion_worker.go:144-179 | the queue accepts exactly the requests with a device, an array and an identifier that some cluster could find |
| DeletionNames.FoundIsQueued | service/deletion_worker.go:128-179 | whatever the restart scan picks up the queue accepts |
| DeletionNames.SoftDeletedFitsExactly | service/controller.go:1838-1846 | the tagged name respects 64 characters exactly for names of at most 61 |
| DeletionNames.SoftDeletedKeepsName | service/controller.go:1838-1846 | the tagged name is the first 62 characters of the name and the tag |
| DeletionNames.SoftDeletedIsDone | service/controller.go:1791-1816 | a retried delete takes a tagged volume of the driver for deleted, but for names of 65 characters that end like a tag |
| DeletionNames.SoftDeletedExample | service/controller.go:1838-1846 | a name of 62 characters whose tagged name has 65 |
| CapacitySpec.AvailableExactly | service/capacity_selection.go:94-123 | over every history an array is available exactly when each invalidation and each disqualifying failed poll was followed by a successful poll |
| CapacitySpec.UtilizationIsLastPolled | service/capacity_selection.go:94-101 | over every history the cached utilisation is the one reported by the last successful poll, zero before the first |
| CapacitySpec.OneWarningPerStreak | service/capacity_selection.go:142-150 | the warnings about an array are as many as the maximal streaks of compared values at or above the threshold |
| CapacitySpec.WarningsArePolledStreaks | service/capacity_poller.go:95-113 | over every history of one poller with requests, invalidations and counter changes at any moment, the warnings about an array are as many as the maximal streaks of successful polls at or above the threshold, save a poll whose comparison is still to come |
| CapacityCache.CapacityCache.GetOrCreate | service/capacity_selection.go:66-75 | an entry is created, available, exactly when there is none; nothing else changes |
| CapacityCache.CapacityCache.GetSnapshot | service/capacity_selection.go:81-89 | an unknown array reads as available, empty and idle |
| CapacityCache.CapacityCache.RecordPollSuccess | service/capacity_selection.go:94-101 | the cache after a successful poll |
| CapacityCache.CapacityCache.RecordPollFailure | service/capacity_selection.go:106-113 | the cache after a failed poll |
| CapacityCache.CapacityCache.Invalidate | service/capacity_selection.go:118-123 | the cache after an invalidation |
| CapacityCache.CapacityCache.AddInFlight | service/capacity_selection.go:128-136 | the cache after a change of the in-flight counter |
| CapacityCache.CapacityCache.CrossedCapacityWarningThreshold | service/capacity_selection.go:142-150 | true exactly for a crossing from below, which is remembered |
| CapacityCache.CapacityCache.RunPollCycle | service/capacity_poller.go:95-113 | the cache and the warnings after one cycle over all arrays |
| CapacityCache.CycleRecordsEveryArray | service/capacity_poller.go:95-113 | a cycle over distinct arrays records the answer of each with its time, makes those without one unavailable unless polled within the interval, and touches no other array |
| CapacityCache.CycleInHistory | service/capacity_poller.go:95-113 | a cycle continues the history of the cache and raises exactly the warnings that history counts |
| CapacityCache.CycleIsOnePoller | service/capacity_poller.go:95-113 | every poll cycle continues such a history by another one and leaves no comparison open |
| SelectionSpec.ChoiceIsUnique | service/capacity_selection.go:211-223 | for a given cache the best array is a function of the set of candidates |
| SelectionSpec.UnavailableExactly | service/capacity_selection.go:298-314 | over every history an array is passed over exactly when an invalidation or disqualifying failed poll was not followed by a successful poll, or its last polled utilisation is at or above the threshold |
| SelectionSpec.ChoiceIsLeastUsed | service/capacity_selection.go:211-223 | over every history any other array not passed over was last polled at a higher utilisation than the chosen one, or at the same and is busier, or is as busy and has the greater identifier |
| SelectionSpec.LessMeans | service/capacity_selection.go:218-218 | a string is smaller exactly when it has ended or has the smaller character at the first difference |
| SelectionSpec.SortedHead | service/capacity_selection.go:211-221 | the first of the sorted candidates precedes every other one by utilisation, in-flight count and identifier |
| CreateVolume.Service.SelectArray | service/capacity_selection.go:172-224 | returns the best candidate by utilisation, in-flight count and identifier among those not unavailable, fails exactly when isArrayUnavailable holds for all; without a cache, the smallest identifier |
| CreateVolume.Service.HandleConnectivityFailover | service/capacity_selection.go:368-408 | makes the failed array unavailable and changes nothing else; stops exactly at the third attempt; otherwise the next array is the best choice left, or there is none |
| CreateVolume.Service.FirstArray | service/controller.go:4753-4795 | the array of the first attempt is the prescribed one, the only candidate or the best choice, and there is none exactly when it is unavailable, there are no candidates, or all are unavailable |
| CreateVolume.Service.TryOnce | service/controller.go:493-532 | how one iteration ends and what it does to the cache |
| CreateVolume.Service.Create | service/controller.go:454-533 | at most three attempts, one for a prescribed array; with a cache the attempted arrays are distinct and each is the best choice left after the earlier failures, seen from the cache at the beginning; exactly those that failed with a connectivity error become unavailable and nothing else in the cache changes; the run gives up for lack of arrays only when every candidate failed or was unavailable at the beginning |
| CreateVolume.PickedLater | service/capacity_selection.go:393-398 | a choice made after failures is the best choice without the failed arrays, seen from the cache before them |
| Provisioning.InFlightIsExact | service/controller.go:496-506 | in every interleaving of requests, polls and invalidations each counter equals the number of requests provisioning on the array |
| Provisioning.FailoverIsBounded | service/controller.go:492-532 | in every interleaving a request makes at most three attempts on its candidates, one on a prescribed array; an array chosen again was polled successfully since the request last gave up on it; every array given up on is unavailable unless polled successfully since |
| Provisioning.RetriedOnlyAfterPoll | service/capacity_selection.go:368-408 | in every run, between giving up on an array and the next attempt of the same request on it lies a successful poll of it |
| Provisioning.UnavailableUntilPolled | service/capacity_selection.go:94-123 | an array given up on is unavailable to every request until the next successful poll of it |
| Provisioning.RequestsEnd | service/controller.go:492-532 | in every interleaving all attempts of a request but the last failed to reach their array; it goes on only after such a failure and with fewer than three attempts, and a prescribed array is tried once |
| Provisioning.UndisturbedChoice | service/capacity_selection.go:172-224 | a request not interrupted while it reads its candidates makes the choice that is made at one stroke |
| Provisioning.FailoverGoesOn | service/capacity_selection.go:368-408 | after fewer than three attempts it goes on to the best candidate by the cache in which the failed array is unavailable |
| DynamicStorageGroup.ScanListing | service/controller.go:358-376 | finds the first least filled group of the family under the limit, and all names taken |
| DynamicStorageGroup.InFamilyExactly | service/controller.go:361-366 | the family is exactly the base name and, unless that is empty, the base name with a double dash and one or more digits behind it |
| DynamicStorageGroup.ProposeName | service/controller.go:394-410 | ends, with the first free name, after at most as many collisions as there are names taken |
| DynamicStorageGroup.GetDynamicSG | service/controller.go:349-411 | reuses exactly when the base name is not empty and a group of the family has room, then the first least filled one; otherwise proposes the first free name of the family, which no listed group has when the base name is not empty |
| DynamicStorageGroup.ProposedInjective | service/controller.go:396-401 | the names proposed are distinct |
| PublishContext.Publication.Update | service/controller.go:2108-2148 | writes the joined identifiers in chunks, their count and the LUN address, or fails and writes nothing when no port could be fetched |
| PublishContext.FetchedExactly | service/controller.go:2110-2117 | ports that cannot be fetched are left out, all others are kept in their order |
| PublishContext.Publication.TargetIdentifiers | service/node.go:276-289 | concatenates as many chunks as the count says, or reads the single key |
| PublishContext.ReadsBack | service/node.go:276-289 | the node reads back the text and the LUN address, whatever the context held before, and no chunk written is longer than 128 characters |
| PublishContext.OtherSideKept | service/node.go:390-413 | writing one side leaves what is read for the other side unchanged |
| PublishContext.TargetsRoundTrip | service/node.go:3889-3895 | for every non-empty list of comma-free identifiers, even empty ones, the node ends up with the same list |
| PublishContext.SingleKeyRoundTrip | service/node.go:276-289 | so it does from a context with the single key |
| PublishContext.BadCountReadsNothing | service/node.go:276-289 | a count that is no number reads as the empty text |
| PublishContext.BothSidesRoundTrip | service/node.go:390-413 | so it does for both arrays of a Metro volume in one context |
| PublishContext.GetArrayTargets | service/node.go:3882-3917 | which identifiers are Fibre Channel ports, and which lists are looked up as NVMe or iSCSI targets |
| PublishContext.FibreChannelExactly | service/node.go:3882-3917 | target by target, a port behind 0x is Fibre Channel, without its 0x, and nothing else is |
| PublishContext.FibreChannelRoundTrip | service/node.go:3882-3917 | the node ends up with the Fibre Channel ports the controller wrote, in their order |
| VolumeHandle.ParseOfParts | service/controller.go:1591-1650 | everything the parser does with a name, an array part and a device part |
| VolumeHandle.ParseOfGroups | service/controller.go:1616-1629 | the same for file system identifiers |
| VolumeHandle.DeviceRoundTrip | service/controller.go:1579-1650 | block and snapshot handles parse back to their parts exactly for names of at least three characters |
| VolumeHandle.MetroRoundTrip | service/controller.go:911-911 | so do Metro handles, an empty remote device included |
| VolumeHandle.FileSystemRoundTrip | service/controller.go:1607-1629 | so do file system handles |
| VolumeHandle.RoundTrip | service/controller.go:1579-1650 | parsing inverts all three printers |
| VolumeHandle.HandlesAreInjective | service/controller.go:1579-1582 | well-formed volumes with the same handle are the same volume, kind included |
| VolumeHandle.ParsesExactly | service/controller.go:1591-1650 | of all strings exactly those are parsed that can be cut into a name of at least three characters, an array part and a device or file system part, with a colon in the last if there is one in the second; the parts returned are the parts of any such cut |
| VolumeHandle.CrashesExactly | service/controller.go:1640-1648 | of all strings the parser crashes exactly on those that can be cut that way with a colon in the array part and none in the device part |
| VolumeHandle.CrashExample | service/controller.go:1640-1648 | vol-1:2-0001A is one |
| VolumeSize.AcceptedExactly | service/controller.go:1414-1510 | the answer is n cylinders exactly when n is the least number holding the required, default or minimum size and n cylinders fit the limit and the whole gigabytes left in the pool; it is an error of the pool exactly when that cannot be asked |
| VolumeSize.AvailableExactly | service/controller.go:1430-1467 | a size is available exactly when a whole number of gigabytes left, by the pool figure or else by both emulations together, holds it; a pool of which nothing is known holds the largest volume |
| VolumeSize.Resubmitted | service/controller.go:3767-3804 | asking for the size allotted gives the same number of cylinders |
| VolumeSize.UnlimitedAcceptsExactly | service/controller.go:3767-3771 | without limit and pool exactly the sizes from 0 to the maximum are accepted |
| RemoteIdentifiers.RemoteArray.SyncRemoteVolumeIdentifiers | service/csiaddons_helpers.go:580-716 | the remote identifiers after a run and whether it succeeded, for every combination of answers |
| RemoteIdentifiers.RemoteArray.PerVolumeRename | service/csiaddons_helpers.go:720-736 | every rename that goes through is applied, in order, and the result says whether all did |
| RemoteIdentifiers.GatherNames | service/csiaddons_helpers.go:586-649 | which volumes and names are known from listings, with the fall-backs |
| RemoteIdentifiers.PlanRenames | service/csiaddons_helpers.go:651-696 | the pending renames in order, and whether anything could not be determined |
| RemoteIdentifiers.GatherListsAll | service/csiaddons_helpers.go:586-649 | a run works on all volumes of the bulk listing, or without it of the plain one, and on no others; it lacks a listing exactly when it gets neither |
| RemoteIdentifiers.RenamesExactly | service/csiaddons_helpers.go:651-696 | a rename is issued exactly for the partner of a listed volume with a name which the partner is not known under, names being those listed last or else fetched |
| RemoteIdentifiers.SucceedsExactly | service/csiaddons_helpers.go:580-716 | a run succeeds exactly when there is a listing, everything asked about its volumes is answered, and every rename goes through |
| RemoteIdentifiers.LastRenameCounts | service/csiaddons_helpers.go:720-736 | a device ends with the name of the last rename of it that goes through |
| RemoteIdentifiers.NotRenamed | service/csiaddons_helpers.go:720-736 | and keeps its name if none does |
| RemoteIdentifiers.SameRenamesEitherWay | service/csiaddons_helpers.go:606-696 | with truthful answers the bulk and the per-volume way compute the same renames |
| RemoteIdentifiers.PartnersCarryTheName | service/csiaddons_helpers.go:567-716 | after a successful run with truthful answers and injective pairing the partner of every listed volume with a name carries that name |
| RemoteIdentifiers.OthersAreLeftAlone | service/csiaddons_helpers.go:706-736 | no remote volume other than partners of listed volumes is renamed, successful run or not |
| RemoteIdentifiers.SecondRunIsIdle | service/csiaddons_helpers.go:573-575 | a second run issues no rename, whichever way it gathers the names |
| ReplicationNames.TruncateKeepsEnds | service/controller.go:1549-1561 | truncation leaves exactly the allowed length, the beginning and the end of the string |
| ReplicationNames.BuildsExactly | service/csiaddons_helpers.go:193-211 | the name is built exactly when group and mode have at most 44 characters, and has at most 64 exactly when they have at most 43 |
| ReplicationNames.NameIs | service/csiaddons_helpers.go:193-211 | the name is the managed prefix, prefix and namespace or their defaults shortened to the room left, group and mode, in this order |
| ReplicationNames.TrimSpaceExactly | service/csiaddons_helpers.go:194-201 | all white space at both ends is dropped and nothing else |
| ReplicationNames.TooLongExample | service/csiaddons_helpers.go:193-211 | a group of 40 characters: 65 characters with the mode SYNC, a crash with ASYNC |
| ReplicationNames.NameRoundTrip | service/csiaddons_helpers.go:193-239 | dash-free group and mode are parsed back from every name built, truncated or not |
| ReplicationNames.ParsesExactly | service/csiaddons_helpers.go:226-239 | of all names exactly those are parsed that have the managed prefix and end in a dash-free, non-empty group and mode |
| ReplicationNames.DecodesExactly | service/csiaddons_helpers.go:241-264 | decoding undoes encoding exactly for colon-free parts with an array and a storage group |
| ReplicationNames.OnlyEncodedIsDecoded | service/csiaddons_helpers.go:241-264 | whatever is decoded encodes to the string it came from |
| ReplicationNames.GroupSurvives | service/csiaddons_helpers.go:193-264 | group and mode survive building, encoding, decoding and parsing |

## Left out

- Unisphere, Kubernetes, gRPC, vSphere, iSCSI, NVMe and file system calls: only their answers appear.
- SRDF failover, failback and swap: their outcome depends on array semantics the repository does not define.
- DeletionQueue.Queue.RemoveVolumesFromStorageGroup: the SRDF branches (`service/deletion_worker.go:520-588`), with the retry that drops stale volumes, are not modelled; one arbitrary answer stands for how the removal ends.
- Unlinking and terminating snapshots (`service/deletion_worker.go:278-376`): one arbitrary error text per device.
- The worker's rotation over steps and arrays, its request channels and its shutdown: runs contain the steps in any order, which includes that one.
- DeletionQueue.CsiDevice.UpdateStatus: time stamps are not modelled, and the texts of mismatch messages are constants.
- LockInfo.Count: it is never read.
- Provisioning.InFlightIsExact: the counter is an unbounded integer, the source's has 32 bits; panics during provisioning and replacing the cache while requests are under way are not modelled.
- VolumeSize.AcceptedExactly: remaining pool capacity is a real number, and multiplying it into bytes does not overflow 64 bits.
- CreateVolume.Service.SelectArray: zones appear only in error texts and log lines and are not modelled; matching arrays to topology labels is not modelled, the candidate list is an input.
- Aggregating pool capacities into one percentage (`service/capacity_poller.go:175-209`): it would only add an easy member.
- PublishContext.Publication.Update: choosing the ports from masking view connections is not modelled, the list of ports is an input.
- ReplicationNames.NameRoundTrip: white space is trimmed in the Latin-1 range only.
- Mounting, node start-up, host adoption, metrics, interceptors, version caches, environment parsing, reverse proxy, leader election and logging.
