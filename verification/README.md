# KubeUI console: verified models

KubeUI is a Go console over Kubernetes. This project models the parts of it that hold
state or follow a protocol, and proves what they promise. Each module follows one
component:

| file | component |
|---|---|
| `SnapshotStore`, `SnapshotRetention`, `SnapshotInstants`, `SnapshotRaces` | drift snapshots: the ring in a ConfigMap, whole runs of Puts at distinct and at any times, concurrent writers |
| `AuditRing`, `AuditFlush` | the audit log: the bounded ring, and its flushes and crashes |
| `AuditForward`, `ForwardCursor` | forwarding the audit log: one cycle, and the cursor under interleaving |
| `Drain` | draining a node |
| `Watch` | the resource watch stream |
| `Protection` | the guard on protected objects |
| `GitOps` | GitOps sources, their scheduler and the plan's counters |
| `Strip` | the two normalisers over JSON objects |
| `AdminReach` | who can reach cluster-admin |
| `Rollback` | ReplicaSet history and the rollback target |
| `ExecStream` | the exec terminal's byte stream |
| `DriftTimeline` | attribution of snapshots to audit entries |
| `ImageRef`, `SizeUnits` | image references, size units |
| `SliceSort`, `Text`, `Common` | the contract of `sort.Slice`; facts about strings; what several modules share |

Objects whose methods change fields are classes, loops are loops, and each such method is
proved against a function of the old state. Protocols are state machines: an action is one
atomic step, a run is a sequence of actions, and a property of a run is proved by showing
that every step keeps an invariant. The API server appears as parameters that say which
calls fail, and as the checks it makes itself: resource versions, existing names, eviction
verdicts, an ordered event log.

`dafny verify dfyconfig.toml` checks everything.

## What the proofs found

Each of these comes with a concrete run and, where a property fails, with the exact
condition under which it holds.

* A failed audit flush is not tried again: the dirty flag was cleared before the write, so
  the entry stays only in memory until the next Record (`AuditFlush.FailedWriteLeavesEntryUncovered`,
  `AuditFlush.NoRetryOnItsOwn`). In every reachable state the whole ring is stored exactly when
  it is empty, or carries on the stored log and has the same last id
  (`AuditFlush.EveryEntryIsStoredIff`).
* A reload that cannot read the ConfigMap cuts the ring off from the stored log, and the next
  flush replaces that log (`AuditFlush.UnreadableReloadLosesTheLog`). A write loses stored
  entries for another reason than the capacity exactly then (`AuditFlush.WriteCarriesOverIff`,
  `AuditFlush.CutOffIff`); with readable reloads the stored last id never goes down
  (`AuditFlush.StoredLogOnlyGrows`).
* The forwarding cursor can move back, by the save of a config request
  (`ForwardCursor.CursorCanMoveBack`) and by the scheduler's own save after one
  (`ForwardCursor.SchedulerCanMoveBack`): exactly when a save carries an older cursor than the
  stored one (`ForwardCursor.MovesBackIff`), and never if every config request that is saved
  still meets the cursor it loaded (`ForwardCursor.CurrentRequestsNeverMoveBack`).
* No cursor is ever past an undelivered entry exactly when no batch that left out an
  undelivered entry was taken (`ForwardCursor.CursorsAreSafeIff`). That cannot happen while
  every collection meets at most 1000 new entries (`ForwardCursor.FittingRunsLeaveNothingOut`);
  past that it leaves out the oldest, and the save puts the cursor past them
  (`ForwardCursor.CollectsEverythingIff`, `ForwardCursor.OverflowPassesUndelivered`).
* A single GitOps sync never changes the set of sources, but it writes back the whole source
  it loaded and so can undo an edit (`GitOps.SyncCanUndoAnEdit`). The scheduler's save can
  bring a deleted source back (`GitOps.SchedulerCanResurrect`) and undo an edit although the
  set of sources stays the same (`GitOps.SchedulerCanUndoAnEdit`). `GitOps.IdsFollowIff` and
  `GitOps.SettingsFollowIff` say exactly when none of this happens, and
  `GitOps.UndisturbedRunsAreRight` gives a condition on the timing of requests alone.
* Two snapshots taken at the same nanosecond share one blob: the older then shows the newer
  content (`SnapshotRetention.SameInstantOverwrites`), or pruning the older takes the newer's
  content away (`SnapshotInstants.SameInstantLosesContent`).
  `SnapshotInstants.ShowsItsOwnContentIff` says exactly which entries are affected.
* The size budget is checked with the index text that a Put replaces, so what is written can
  exceed it by as much as the text grows (`SnapshotInstants.WrittenCanExceedTheBudget`,
  `SnapshotInstants.WrittenSize`).
* A ring restored through a smaller capacity is not refilled by a larger one
  (`AuditRing.GrowingDoesNotRefill`); `AuditRing.RingHoldsTheNewestIff` says exactly when
  the ring is the newest entries.
* An apply treats every failed existence read as "not there" and then skips the guard
  (`Protection.UnreliableReadLosesProtection`); `Protection.ManifestKeepsProtectionIff`
  and `Protection.StaysProtectedIff` say exactly when protection is kept, over manifests of any
  length and over runs. A protect that lands between a guard's read and the write is lost
  exactly when the guard met the object unprotected (`Protection.RacingUpdateKeepsProtectionIff`
  and its siblings).
* A new revision annotation is a change to the GitOps plan and none to the snapshots
  (`Strip.RevisionChangesOnlyThePlan`); nothing else is (`Strip.PlanEqualSnapshotsAgree`).
* Rollback never goes back to a ReplicaSet whose revision annotation is missing or cannot be
  read (`Rollback.UnreadableRevisionIsNoTarget`).
* An empty WebSocket message ends the terminal's input (`ExecStream.CopyUntilError`).

## Model

| member | source | states |
|---|---|---|
| `SnapshotStore.ConfigMapStore.Put` | internal/snapshot/store.go:149-212 | An oversize or repeated content stores nothing; an error stores nothing; otherwise the resource's ConfigMap is the appended ring pruned by count and then by size, and no other ConfigMap changes |
| `SnapshotStore.ConfigMapStore.Size` | internal/snapshot/store.go:214-223 | The loop over the maps adds up every blob and the index text once, whatever the order |
| `SnapshotStore.BlobBytesRemove` | internal/snapshot/store.go:214-223 | The total does not depend on the order the map is walked in |
| `SnapshotStore.ConfigMapStore.Timeline` | internal/snapshot/store.go:225-247 | Nothing for a failing read; otherwise a permutation of the index's rows with no later row newer, exactly the reversed index when times increase |
| `SnapshotStore.SortedIsReverse` | internal/snapshot/store.go:245 | Any sort by descending time of rows with increasing times is their reversal |
| `SnapshotStore.RefKeyInjective` | internal/snapshot/store.go:71 | Two resources share a key only if a kind or namespace contains the separator |
| `SnapshotRetention.BlobKeysAreIds` | internal/snapshot/store.go:149-212 | In a ring the blob keys are exactly the ids of the index |
| `SnapshotRetention.BlobAt` | internal/snapshot/store.go:149-212 | At distinct times each blob holds the content that was put |
| `SnapshotRetention.PutKeepsRetained` | internal/snapshot/store.go:149-212 | One accepted Put keeps the ring equal to the newest 1 to 20 counted snapshots, and meets the size budget unless one is left |
| `SnapshotRetention.PruningIsLeast` | internal/snapshot/store.go:189-199 | The two pruning loops leave the longest suffix that meets both limits: nothing is dropped that could have stayed |
| `SnapshotRetention.RunIsRetained` | internal/snapshot/store.go:149-212 | After any run of Puts at distinct times, blobs and index are the newest 1 to 20 of the snapshots that count, ending in the newest, within budget unless one remains |
| `SnapshotRetention.TimelineShowsWhatWasPut` | internal/snapshot/store.go:149-247 | After any such run the timeline shows, newest first, the contents that were put |
| `SnapshotRetention.SameInstantOverwrites` | internal/snapshot/store.go:184-186 | Counterexample without distinct times: the older entry shows the newer content |
| `SnapshotInstants.PutDrops` | internal/snapshot/store.go:184-199 | A Put drops some of the oldest entries, never its own, and meets both limits |
| `SnapshotInstants.IndexIsTheNewest` | internal/snapshot/store.go:149-212 | After any run of Puts, at any times, the index is the newest 1 to 20 of the snapshots that count, within budget unless one remains |
| `SnapshotInstants.ShownContent` | internal/snapshot/store.go:184-247 | For any run, every entry shows the content of the last counted snapshot of its time, or nothing once one of that time was dropped in that one's Put or since |
| `SnapshotInstants.ShowsItsOwnContentIff` | internal/snapshot/store.go:184-247 | So the exact condition for an entry to show its own content |
| `SnapshotInstants.SameInstantLosesContent` | internal/snapshot/store.go:184-199 | Counterexample without distinct times: pruning the older entry deletes the newer one's blob |
| `SnapshotInstants.WrittenSize` | internal/snapshot/store.go:189-212 | The ConfigMap written exceeds the budget by at most the growth of the index text, unless a single entry is left |
| `SnapshotInstants.WrittenCanExceedTheBudget` | internal/snapshot/store.go:189-212 | It does when the replaced text still fits and the new one does not |
| `SnapshotRaces.EveryInterleavingIsSerial` | internal/snapshot/store.go:149-212 | Under any interleaving of reads and writes of any number of Puts, the stored ConfigMap and every reported result are those of running the Puts without errors one at a time |
| `SnapshotRaces.RingSurvivesRaces` | internal/snapshot/store.go:149-212 | After any interleaving the ConfigMap is a correct ring |
| `SnapshotRaces.LoserChangesNothing` | internal/snapshot/store.go:149-212 | A Put that fails changes nothing; one that reports it stored wrote on top of exactly what was stored |
| `SnapshotRaces.OneWinnerPerVersion` | internal/snapshot/store.go:206-212 | Of two Puts that read the same version the second to write fails |
| `SnapshotRaces.WriteStoresIff` | internal/snapshot/store.go:149-212 | Over any run a Put that gets to its write stores its snapshot exactly when the call works and no step since its own read reported a store, whether it had found a ConfigMap or none |
| `SnapshotRaces.UnderWayBegan` | internal/snapshot/store.go:149-212 | Every Put under way was begun by a step, so the condition is about all of them |
| `SnapshotRaces.AloneIsPut` | internal/snapshot/store.go:149-212 | With nobody in between, a Put of the state machine is the store's Put from any state: same result for every answer of the API server, same ConfigMap |
| `AuditRing.MemoryStore.constructor` | internal/audit/audit.go:47-52 | A capacity of 0 or less becomes the default |
| `AuditRing.MemoryStore.Record` | internal/audit/audit.go:54-66 | Appends the entry under the next id, stamped if it had no time, and keeps the newest `cap` |
| `AuditRing.RecordedIsNewest` | internal/audit/audit.go:54-66 | The newest entry is the one recorded, field by field, under the next id and dated only if it had no time; the others stay as they were |
| `AuditRing.MemoryStore.Snapshot` | internal/audit/audit.go:70-76 | A copy of the ring and its counter |
| `AuditRing.MemoryStore.Restore` | internal/audit/audit.go:79-87 | The newest `cap` of the saved entries, counting on where the snapshot stopped |
| `AuditRing.MemoryStore.List` | internal/audit/audit.go:89-105 | The page is as long as asked for or as is left, and its entry i is the i-th newest after the offset, with the defaults for bad arguments |
| `AuditRing.PagesCoverTheRing` | internal/audit/audit.go:89-105 | Pages of any size at consecutive offsets concatenate to the reversed ring, no gap, no repeat |
| `AuditRing.IdsAreContiguous` | internal/audit/audit.go:54-87 | Over any mix of records, snapshots and restores into any capacities, ids are contiguous and end at nextID |
| `AuditRing.RingHoldsTheNewest` | internal/audit/audit.go:54-87 | While no restore grows the capacity, the ring is the last min(cap, n) entries |
| `AuditRing.RingHoldsTheNewestIff` | internal/audit/audit.go:54-87 | In every reachable state it is that exactly when it is full or holds every id so far |
| `AuditRing.GrowingDoesNotRefill` | internal/audit/audit.go:79-87 | Counterexample for a growing capacity |
| `AuditFlush.StepKeepsInv` | internal/audit/configmap.go:42-119 | Every atomic step of Record, Run, Flush, crash and reload keeps the flush protocol's invariant |
| `AuditFlush.EveryEntryIsCovered` | internal/audit/configmap.go:42-100 | In every reachable state each entry of the ring is stored, or a flush is owed or under way, or the last write failed with nothing recorded since |
| `AuditFlush.CrashRestoresLastFlush` | internal/audit/configmap.go:73-119 | A crash anywhere and a reload yield exactly the ring as it stood at the step where the last flush that wrote had copied it, cut to the new capacity |
| `AuditFlush.HeldIsACopy` | internal/audit/configmap.go:73-100 | What a flush under way will write is the ring at its own copy, in the same process |
| `AuditFlush.CrashWithoutAFlush` | internal/audit/configmap.go:102-119 | Before any successful flush, or when the ConfigMap cannot be read, a reload yields an empty ring |
| `AuditFlush.QuietCrashLosesNothing` | internal/audit/configmap.go:42-119 | With nothing owed, under way or failed, a crash and reload lose nothing |
| `AuditFlush.IdsContiguousAcrossCrashes` | internal/audit/configmap.go:42-119 | Ids stay contiguous and end at nextID across crashes |
| `AuditFlush.FlushPersistsTheRing` | internal/audit/configmap.go:73-100 | A flush with no Record in between stores the whole ring if both calls work and leaves the ConfigMap otherwise; the ring and the flag stay |
| `AuditFlush.CancelFlushesOnce` | internal/audit/configmap.go:50-59 | A cancel flushes whatever the flag says, and ends the goroutine |
| `AuditFlush.StoppedWritesNothing` | internal/audit/configmap.go:50-59 | After that nothing is written until a restart |
| `AuditFlush.LastFailedIff` | internal/audit/configmap.go:73-100 | The failure mark of the invariants says by the steps of the run: the last write failed, and nothing was recorded, written or restarted since |
| `AuditFlush.NoRetryOnItsOwn` | internal/audit/configmap.go:50-64 | Once the flag is clear, no number of ticks writes anything until a Record, a cancel or a restart |
| `AuditFlush.EveryEntryIsStoredIff` | internal/audit/configmap.go:42-119 | In every reachable state, unreadable reloads included, every entry of the ring is stored exactly when the ring is empty, or is not cut off from the stored log and has its last id |
| `AuditFlush.StepKeepsOneLog` | internal/audit/configmap.go:42-119 | Every step keeps: unless cut off, the ring and what a flush holds carry on the stored log |
| `AuditFlush.CutOffIff` | internal/audit/configmap.go:102-119 | The ring is cut off exactly when the last restart could not read a ConfigMap that was there and nothing was written since |
| `AuditFlush.WriteCarriesOverIff` | internal/audit/configmap.go:73-100 | A write carries a stored entry over exactly when the ring is not cut off and the entry is within its window |
| `AuditFlush.StoredIdDropsIff` | internal/audit/configmap.go:73-100 | The stored last id goes down exactly in a write of an older one, and only for a ring that was cut off |
| `AuditFlush.StoredLogOnlyGrows` | internal/audit/configmap.go:42-119 | Over any run whose reloads can read what is there the stored last id never goes down |
| `AuditFlush.UnreadableReloadLosesTheLog` | internal/audit/configmap.go:102-106 | A run in which an unreadable reload and the next flush replace the whole stored log |
| `AuditFlush.FailedWriteLeavesEntryUncovered` | internal/audit/configmap.go:50-100 | A run that ends with an entry stored nowhere and no flush owed |
| `AuditFlush.ConfigMapStore.constructor` | internal/audit/configmap.go:36-40 | Is the restart step, from whatever the process before it left |
| `AuditFlush.ConfigMapStore.Record` | internal/audit/configmap.go:42-45 | Is the two atomic steps of the protocol in a row |
| `AuditFlush.ConfigMapStore.Flush` | internal/audit/configmap.go:73-100 | Is the snapshot, fetch and commit steps in a row |
| `AuditFlush.ConfigMapStore.OnTick` | internal/audit/configmap.go:50-64 | Is a tick and, when the flag was set, a flush |
| `AuditForward.CollectAudit` | internal/api/forward.go:192-229 | The loop returns one event for each listed entry after the cursor, in order: its namespace, resource, action, status and time, the email or else the user, a warning exactly for a failed action or a delete; and the newest of their times |
| `AuditForward.NewerMembers` | internal/api/forward.go:192-229 | An entry is collected exactly when it is listed and after the cursor |
| `AuditForward.NewerInOrder` | internal/api/forward.go:204-213 | Each collected entry comes right behind those listed before it |
| `AuditForward.NewestOfCollected` | internal/api/forward.go:204-229 | The new cursor is the time of a collected entry and no collected entry is later |
| `AuditForward.EachEntryIsTold` | internal/api/forward.go:214-223 | One event for each entry, telling it field by field |
| `AuditForward.Dispatch` | internal/api/forward.go:233-258 | The error list names the targets that refused and is empty exactly when every configured target took the batch; the count is added up over the targets, and is batch times targets when all took all of it |
| `AuditForward.SentOrRefused` | internal/api/forward.go:233-258 | Each configured target is named in the errors or counted with the whole batch, but for the lines that syslog skipped; the names are exactly those of the targets that refused |
| `AuditForward.ForwardHandler.LoadConfig` | internal/api/forward.go:319-332 | The stored config with the default interval filled in, or the defaults and failure |
| `AuditForward.ReadFillsInTheInterval` | internal/api/forward.go:319-332 | What is loaded always has an interval and is otherwise what is stored |
| `AuditForward.ForwardHandler.PutConfig` | internal/api/forward.go:293-317 | The request merged over the loaded config is stored, or nothing changes |
| `AuditForward.ForwardHandler.RecordRun` | internal/api/forward.go:360-375 | Run, result and a non-empty cursor are stored over the reloaded config, or nothing changes |
| `AuditForward.RunKeepsSettings` | internal/api/forward.go:360-375 | A run changes no setting, and the cursor only if it has one |
| `AuditForward.MergeKeepsStatus` | internal/api/forward.go:293-317 | A client cannot set the status fields or the cursor, lose the token by omission, or leave the interval's range, which takes the nearest bound; everything else is as it asks |
| `ForwardCursor.CollectsTheNewSuffix` | internal/api/forward.go:192-229 | A collection is exactly the end of the log after the cursor, newest first, when it fits a listing |
| `ForwardCursor.CollectsEverythingIff` | internal/api/forward.go:192-229 | It misses nothing exactly when the new entries fit a listing |
| `ForwardCursor.OverflowSkipsAnEntry` | internal/api/forward.go:192-229 | Otherwise the first entry after the cursor is left out |
| `ForwardCursor.TakenIsSafeIff` | internal/api/forward.go:388-397 | A batch that every target takes gives the scheduler a safe cursor exactly when it leaves out no undelivered entry |
| `ForwardCursor.StepKeepsSafe` | internal/api/forward.go:192-409 | Every other step keeps: no cursor value stored or held by anyone is past an undelivered entry |
| `ForwardCursor.CursorsAreSafeIff` | internal/api/forward.go:192-409 | Over any run no such cursor is ever past an undelivered entry exactly when no batch that leaves out an undelivered entry is taken |
| `ForwardCursor.CursorNeverPassesUndelivered` | internal/api/forward.go:293-409 | Under any interleaving of scheduler and config requests without such a batch, every entry at or below the stored cursor was in a batch dispatched without errors |
| `ForwardCursor.FittingRunsLeaveNothingOut` | internal/api/forward.go:192-229 | There is no such batch in a run whose collections all fit a listing |
| `ForwardCursor.OverflowPassesUndelivered` | internal/api/forward.go:379-409 | A collection that overflows, then sent and saved, puts the stored cursor past an undelivered entry |
| `ForwardCursor.BatchesTileTheLog` | internal/api/forward.go:360-409 | As long as nothing is left out like that and no save moved the cursor aside or was lost, the batches join to a prefix of the log: disjoint, no gap, in order |
| `ForwardCursor.UntroubledRunsAreClean` | internal/api/forward.go:360-409 | Loads and saves that succeed with no config request saved move and lose no cursor |
| `ForwardCursor.OnlyWhatIsAskedFor` | internal/api/forward.go:379-397 | Over any run nothing is forwarded while disabled or without an address, and no audit entry without its signal |
| `ForwardCursor.DeliveredIff` | internal/api/forward.go:388-397 | An entry counts as delivered exactly when a step sent a batch with it that every target took |
| `ForwardCursor.CycleForwardsTheNewEntries` | internal/api/forward.go:379-409 | An uninterrupted cycle whose new entries fit a listing delivers exactly the entries after the cursor and stores the newest time if every target takes the batch, and delivers nothing and leaves the cursor otherwise; it records the run and changes no setting |
| `ForwardCursor.StepsAreTheHandlers` | internal/api/forward.go:293-375 | The protocol's steps of a config request and of the end of a cycle do what PutConfig and recordRun do, and end it whatever fails |
| `ForwardCursor.MovesBackIff` | internal/api/forward.go:293-375 | A step lowers the stored cursor exactly when it saves a config whose loaded cursor is older, for a config request or for the scheduler |
| `ForwardCursor.NeverDecreasesIff` | internal/api/forward.go:293-409 | Over a run the cursor never decreases exactly when there is no such save |
| `ForwardCursor.CurrentRequestsNeverMoveBack` | internal/api/forward.go:293-409 | It never does if every config request that is saved still meets the cursor it loaded: the scheduler alone never moves it back |
| `ForwardCursor.CursorCanMoveBack` | internal/api/forward.go:293-317 | A run in which a config request puts an older cursor back |
| `ForwardCursor.SchedulerCanMoveBack` | internal/api/forward.go:360-375 | A run in which the scheduler's own save does |
| `Drain.ExemptExactly` | internal/k8s/nodes.go:186-202 | Exempt is exactly finished, terminating, mirror or DaemonSet-owned |
| `Drain.ReasonIsRight` | internal/k8s/nodes.go:186-202 | The reason shown is the first that applies |
| `Drain.BuildDrainReport` | internal/k8s/nodes.go:230-250 | The loop splits the pods into skipped, with reasons, and evictable, in order |
| `Drain.SkippedPlusEvictable` | internal/k8s/nodes.go:230-250 | Skipped plus evictable is every listed pod, with multiplicity |
| `Drain.ReportInOrder` | internal/k8s/nodes.go:230-250 | Each pod stands in its place in its list, a skipped one with its reason |
| `Drain.OrderlyCallsLoseNoPod` | internal/k8s/nodes.go:292-324 | Whatever the verdicts, every pod is once either taken down or left |
| `Drain.Cluster.EvictPass` | internal/k8s/nodes.go:298-316 | One walk in any order tries every pod still left exactly once; what is left was refused, and blocked says whether anything is left |
| `Drain.Cluster.EvictUntil` | internal/k8s/nodes.go:292-324 | The retry loop terminates, and leaves a pod, unless cancelled, only at the deadline and after trying it in every pass; passes are limited by the timeout |
| `Drain.Cluster.DrainNode` | internal/k8s/nodes.go:270-334 | Nothing is called unless cordon and list succeed; the report is as DrainedWell says; it times out no earlier than its timeout, after at least one and at most ceil(timeout / 5s) passes |
| `Drain.BlockedPods` | internal/k8s/nodes.go:326-331 | Blocked is exactly what remains, each once, with its budget |
| `Drain.NoExemptPodIsCalled` | internal/k8s/nodes.go:270-334 | No exempt pod is ever the target of an eviction call, and every call asks for the grace period of the request |
| `Drain.EachPodOnce` | internal/k8s/nodes.go:270-334 | Unless cancelled, every evictable pod is in evicted or blocked exactly once, and the totals agree |
| `Drain.EvictedByVerdict` | internal/k8s/nodes.go:304-308 | Cancelled or not, a pod is reported as evicted exactly when some call for it was accepted or found it gone |
| `Drain.BlockedByVerdict` | internal/k8s/nodes.go:292-332 | A drain that ends reports an evictable pod as blocked, and that it timed out, exactly when no call for it was; each pass has tried it |
| `Drain.EveryPodByVerdict` | internal/k8s/nodes.go:270-344 | So each evictable pod has been tried and is shown under its own name: evicted, or blocked with its reason and its budget |
| `Drain.RefusedIff` | internal/k8s/nodes.go:309-316 | A pod counts as refused exactly when some call for it was answered with too many requests or another error |
| `Drain.PassLimitIsCeil` | internal/k8s/nodes.go:270-324 | The limit on passes is the ceiling of the timeout, by default two minutes, over the five seconds of a wait |
| `Drain.BlockedShowsItsBudget` | internal/k8s/nodes.go:337-344 | The budget shown for a blocked pod is the one found for that pod |
| `Watch.StreamWatch` | internal/api/watch.go:129-190 | The select loop computes the pump: what ends it, the version it leaves and the messages sent |
| `Watch.WatchLoop` | internal/api/watch.go:105-125 | The re-watch loop starts each watch from the version the last channel left |
| `Watch.ChannelSendsTheLog` | internal/api/watch.go:129-190 | Over one channel without an Error exactly the log's readable events after the version are sent, and the version stays at their end |
| `Watch.SessionsSendTheLog` | internal/api/watch.go:105-190 | From a positive version, over any number of channels without an Error, exactly the readable events after it are sent |
| `Watch.NoGapNoRepeat` | internal/api/watch.go:105-190 | From any point of any run of the loop, started from the empty version, where the version is that of the last event or bookmark handled, and until an Error: over the rest of the channel and any number of expiries and re-watches exactly the readable events after the version are sent, in order, each once; a failed send loses only its own message, a refused watch adds one error frame |
| `Watch.ErrorSplitsTheRun` | internal/api/watch.go:138-188 | An Error ends the run so far and starts another from the empty version, with nothing of either lost or repeated |
| `Watch.MessagesRise` | internal/api/watch.go:138-188 | Versions sent strictly increase |
| `Watch.MessageOfEach` | internal/api/watch.go:161-185 | Each readable event has its message, in its place, with its own change, namespace, name and version, and the mapper's summary exactly for a hot kind and an object that is not deleted; no other event has one |
| `Watch.SentAsItIs` | internal/api/watch.go:105-190 | So over any number of channels every readable event between two positions is told as it is, unless its was the send that failed |
| `Watch.PumpEnds` | internal/api/watch.go:138-188 | A channel goes on up to the first signal that stops it, and that alone decides: over when the client is gone, watched again after a close or an Error |
| `Watch.PumpVersion` | internal/api/watch.go:149-159 | The version a channel leaves is that of the last event or bookmark handled |
| `Watch.PumpTells` | internal/api/watch.go:161-185 | Over one channel every readable event before its end is told as it is, in order, in an initial burst too |
| `Watch.NextSession` | internal/api/watch.go:105-125 | Each watch starts from the version the channel before it left; a refused one is told with its reason and ends the loop, as does any end but a close or an Error |
| `Watch.ErrorStartsOver` | internal/api/watch.go:138-188 | An Error always makes the next watch start from the empty version |
| `Watch.SentAroundAnError` | internal/api/watch.go:105-190 | Around an Error: the readable events up to a position, the next watch's burst, and the readable events from the position that leaves; those in between are not sent |
| `Watch.OnlyErrorResets` | internal/api/watch.go:138-188 | Nothing else does |
| `Protection.Client.IsResourceProtected` | internal/k8s/protection.go:64-82 | Protected exactly when the object can be read and carries KubeUI's annotation with the value true |
| `Protection.Client.GuardProtectedUpdate` | internal/k8s/apply.go:377-394 | Refuses an unverifiable object, and a protected one unless the new annotations keep the mark |
| `Protection.Client.ApplyDocument` | internal/k8s/apply.go:182-266 | One document: every refusal leaves the cluster alone |
| `Protection.Client.ApplyManifest` | internal/k8s/apply.go:168-267 | The loop applies documents in order until the first refusal |
| `Protection.Client.UpdateResource` | internal/k8s/apply.go:299-337 | Replaces the checked object or changes nothing |
| `Protection.Client.DeleteResource` | internal/k8s/apply.go:342-371 | Deletes only an object verified to be unprotected |
| `Protection.Client.Set` | internal/k8s/protection.go:18-60 | Does what the protect or unprotect request says, or nothing |
| `Protection.RequestTakesEffect` | internal/k8s/protection.go:18-60 | A protect of an object that is there, when the write works, leaves it protected, an unprotect without the annotation, whatever it was before; its other annotations, its body and all other objects stay |
| `Protection.UnprotectUndoesProtect` | internal/k8s/protection.go:18-60 | Protect and then unprotect gives the cluster back |
| `Protection.AppliesIff` | internal/k8s/apply.go:182-266 | A document is applied exactly when it names an object of a known kind, the write works and the guard, if the object was found, lets it pass; then that object is what the server makes of it and no other changes |
| `Protection.UpdatesIff` | internal/k8s/apply.go:299-337 | An update goes through exactly when the guard lets it pass and the write works; then the object is the manifest |
| `Protection.DeletesIff` | internal/k8s/apply.go:342-371 | A delete goes through exactly when the object can be read, is not protected and the call works; then it is gone |
| `Protection.RefusalsSayWhy` | internal/k8s/apply.go:182-394 | Each error is returned exactly under its own condition |
| `Protection.ChecksWhatItWrites` | internal/k8s/apply.go:203-250 | The existence read, the guard's read and the write of an apply or update address one object, and so do the check and the delete, for every kind and every namespace, empty or not |
| `Protection.ApplyKeepsProtectionIff` | internal/k8s/apply.go:182-266 | A document keeps an object protected, however the server merges, exactly unless it writes there without the mark after a failed existence read |
| `Protection.ManifestKeepsProtectionIff` | internal/k8s/apply.go:168-267 | A manifest of any number of documents keeps an object protected after each of them, however the server merges, exactly when a server that forgets what was there gets to no document that exposes it |
| `Protection.ForgetfulGoesFurther` | internal/k8s/apply.go:182-266 | Such a server stops no document that another lets pass |
| `Protection.StaysProtectedIff` | internal/k8s/apply.go:168-394 | Over runs of multi-document applies, updates, deletes, protects and unprotects a protected object stays protected throughout, however the server merges, exactly when no operation breaks that in the cluster it meets |
| `Protection.ProtectedSurvives` | internal/k8s/apply.go:168-394 | Over any run in which no operation breaks it a protected object keeps existing and stays protected, after every document |
| `Protection.ReliableReadsBreakNothing` | internal/k8s/apply.go:212-230 | None does when every existence read finds what is there and nobody unprotects the object |
| `Protection.RacingApplyKeepsProtectionIff` | internal/k8s/apply.go:203-250 | With others writing between an apply's reads and its write: the exact condition |
| `Protection.RacingUpdateKeepsProtectionIff` | internal/k8s/apply.go:312-337 | The same for an update: a protect in between is lost exactly when the guard met the object unprotected and the manifest lacks the mark |
| `Protection.RacingDeleteKeepsProtectionIff` | internal/k8s/apply.go:342-371 | The same for a delete |
| `Protection.UnreliableReadLosesProtection` | internal/k8s/apply.go:218-230 | Counterexample when the existence read fails for a present object |
| `Protection.WritesOnlyWhatItChecked` | internal/k8s/apply.go:299-394 | The object changed is the one whose protection was read, and a protected one changes only by keeping its mark or explicitly |
| `Protection.ApplyDocWritesOnlyWhatItChecked` | internal/k8s/apply.go:182-266 | The object a document changes is the one it looked for and the one it guarded |
| `Protection.ResultsAreTheAppliedPrefix` | internal/k8s/apply.go:182-267 | The results are those of exactly the applied prefix, and the next document is the one refused |
| `Protection.ResultNamesItsDocument` | internal/k8s/apply.go:182-267 | Each result names its document, and says created exactly when the object was not there or could not be read |
| `GitOps.PositionIsFirst` | internal/api/gitops.go:104-121 | The position found is the first source of that id |
| `GitOps.FilterInPlace` | internal/api/gitops.go:140-145 | Filtering a slice into its own front keeps exactly the other sources, in order |
| `GitOps.Replace` | internal/api/gitops.go:111-125 | Edits the source of that id or appends it, and returns what is stored |
| `GitOps.CreateEditsInPlace` | internal/api/gitops.go:111-120 | A create of a known id takes over name, interval and auto-apply of its first source and nothing else; no other source changes |
| `GitOps.CreateAppends` | internal/api/gitops.go:121-123 | Any other create appends the source as it is |
| `GitOps.NormalizedIsUsable` | internal/api/gitops.go:96-102 | What is stored has an interval of at least 30 seconds and a name; the rest is as asked |
| `GitOps.GitOpsHandler.CreateSource` | internal/api/gitops.go:90-129 | Normalised, then edited or appended under its id; on any error nothing changes |
| `GitOps.GitOpsHandler.DeleteSource` | internal/api/gitops.go:131-151 | All other sources stay; on any error nothing changes |
| `GitOps.GitOpsHandler.PersistStatus` | internal/api/gitops.go:302-314 | Replaces the source of that id only if it is still there |
| `GitOps.GitOpsHandler.SyncSource` | internal/api/gitops.go:154-172 | An undisturbed sync stores its first source of that id as a reconcile leaves it, and no id changes |
| `GitOps.GitOpsHandler.Tick` | internal/api/gitops.go:177-205 | An undisturbed tick stores each due source as its reconcile leaves it and every other as it was |
| `GitOps.SchedulerPass` | internal/api/gitops.go:177-220 | The loop reconciles exactly the due sources, each with its own outcome, and says whether there were any |
| `GitOps.DueAgainIff` | internal/api/gitops.go:207-220 | A source is due if it was never checked, and again exactly when its interval is over |
| `GitOps.WithSourceAddsId` | internal/api/gitops.go:104-129 | A create adds its id to the ids unless it is there |
| `GitOps.WithoutRemovesId` | internal/api/gitops.go:140-145 | A delete removes exactly its id |
| `GitOps.OthersStayInOrder` | internal/api/gitops.go:140-145 | A delete leaves every other source as it is and in order, and none of its id |
| `GitOps.WithStatusKeepsIds` | internal/api/gitops.go:302-314 | A persisted status changes no id |
| `GitOps.PersistTouchesOnlyItsSource` | internal/api/gitops.go:302-314 | A persisted status touches no other source |
| `GitOps.IdsFollowIff` | internal/api/gitops.go:104-201 | Throughout any interleaving the stored ids are the fold of the creates and deletes in lock order, exactly when each of the scheduler's saves meets the ids it loaded |
| `GitOps.SyncsNeverChangeTheIds` | internal/api/gitops.go:104-169 | So under any interleaving of creates, deletes and single syncs |
| `GitOps.PersistKeepsSettingsIff` | internal/api/gitops.go:302-314 | A persisted source changes no setting exactly when its id is gone or its settings are those stored |
| `GitOps.SettingsFollowIff` | internal/api/gitops.go:104-201 | Throughout any interleaving the stored settings are those the creates, edits and deletes leave in lock order, exactly when every write of a sync or of the scheduler finds the settings it carries, or its source gone |
| `GitOps.LastRequestWins` | internal/api/gitops.go:104-151 | What the requests leave of an id is decided by its last create or edit, and nothing is left after a delete |
| `GitOps.NeverRequested` | internal/api/gitops.go:104-151 | Nothing is there of an id nobody created |
| `GitOps.QuietSyncIsHarmless` | internal/api/gitops.go:154-169 | A sync undoes nothing if since its load its source was not edited, nor deleted and created again, and no other sync or scheduler write undid a request |
| `GitOps.QuietSchedulerIsHarmless` | internal/api/gitops.go:185-201 | The scheduler undoes nothing and changes no id if since its load nobody created, edited or deleted, and no sync undid a request |
| `GitOps.UndisturbedRunsAreRight` | internal/api/gitops.go:104-201 | In any run with no create or edit of a source under sync, and no create, edit or delete between the scheduler's load and save, no write of either undoes a request and no id is lost or brought back |
| `GitOps.IdsStayUnique` | internal/api/gitops.go:104-314 | Ids stay unique whatever interleaves, the scheduler's bulk saves included |
| `GitOps.SchedulerCanResurrect` | internal/api/gitops.go:185-201 | A run in which the scheduler brings a deleted source back |
| `GitOps.SyncCanUndoAnEdit` | internal/api/gitops.go:154-169 | A run in which a sync undoes an edit |
| `GitOps.SchedulerCanUndoAnEdit` | internal/api/gitops.go:185-201 | A run in which the scheduler undoes an edit, with no id changed |
| `GitOps.Reconcile` | internal/api/gitops.go:224-253 | Only the status changes; it is that of the last plan made, with the error that ended it; applies exactly when asked to, out of sync and free of plan errors; in sync never goes with an error |
| `GitOps.PlanDocument` | internal/k8s/gitopsplan.go:47-90 | One document: its item, by decoding, naming, resolving, reading and the dry run's difference, and the counters kept in tally |
| `GitOps.PlanManifest` | internal/k8s/gitopsplan.go:41-94 | The items are those of the documents in order; the four counters tally and add up to them; in sync exactly when every item is unchanged |
| `GitOps.ItemInOrder` | internal/k8s/gitopsplan.go:47-90 | Each document has its item behind those of the documents before it |
| `GitOps.VerdictIff` | internal/k8s/gitopsplan.go:54-127 | Exactly when a document is to be created, to be updated, unchanged or an error: by whether its kind resolves, the object is there, and a dry run changes its snapshot or its revision |
| `GitOps.NamelessDocuments` | internal/k8s/gitopsplan.go:47-56 | A document that does not decode is an error without a name; one without kind or name gives no item |
| `GitOps.CountIsNumber` | internal/k8s/gitopsplan.go:41-94 | A counter is the number of items with its verdict |
| `GitOps.InSyncIff` | internal/k8s/gitopsplan.go:41-127 | A plan is in sync exactly when every document decodes and, if it names an object, resolves, is there, and a dry run changes neither its snapshot nor its revision annotation |
| `GitOps.CountsAddUp` | internal/k8s/gitopsplan.go:41-94 | Every item falls under exactly one counter |
| `Strip.StripForDiff` | internal/k8s/gitopsplan.go:132-147 | A fresh cleaned copy; the argument and the maps it shares keep their value |
| `Strip.StripInPlace` | internal/snapshot/store.go:95-114 | The object itself is cleaned, and text and hash are those of the result |
| `Strip.CleanMetadataMap` | internal/k8s/gitopsplan.go:135-145 | The deletions reach the nested maps through their references |
| `Strip.CleanComposes` | internal/k8s/gitopsplan.go:132-147 | Cleaning of two sets of annotations is cleaning of their union |
| `Strip.NormalisersAreIdempotent` | internal/snapshot/store.go:95-114 | Both normalisers are idempotent on arbitrary trees |
| `Strip.StripAbsorbsForDiff` | internal/snapshot/store.go:95-114 | Strip after stripForDiff, and before it, is Strip |
| `Strip.PlanEqualSnapshotsAgree` | internal/k8s/gitopsplan.go:110-147 | Objects the plan considers equal get the same snapshot; objects with the same snapshot are equal to the plan exactly when their revision annotations agree |
| `Strip.RevisionChangesOnlyThePlan` | internal/snapshot/store.go:95-114 | Counterexample to the converse |
| `Strip.OnlyNoiseIsNoAnnotations` | internal/k8s/gitopsplan.go:140-145 | Annotations that hold only noise count as none |
| `Strip.CleanKeepsEveryOtherLeaf` | internal/k8s/gitopsplan.go:132-147 | At every path, the leaf is lost if the path is noise and kept unchanged otherwise; nothing is added |
| `AdminReach.HasStr` | internal/k8s/adminreach.go:35-42 | Finds the value or the wildcard |
| `AdminReach.RuleGrants` | internal/k8s/adminreach.go:45-58 | Verb and group match and some listed resource is in the set |
| `AdminReach.GrantsAllowsAResource` | internal/k8s/adminreach.go:45-58 | A rule grants over such a set exactly when it allows the verb on a concrete resource of it |
| `AdminReach.WildcardAllowsEverything` | internal/k8s/adminreach.go:61-67 | A rule is a wildcard exactly when it allows every verb on every resource of every group |
| `AdminReach.RbacWriteAllowsBindingWrites` | internal/k8s/adminreach.go:68-73 | The rbac-write reason is exactly being allowed a write on a kind of binding |
| `AdminReach.EscalateByWhatIsAllowed` | internal/k8s/adminreach.go:74-77 | The escalate reason is exactly being allowed escalate on a kind of role |
| `AdminReach.BindByWhatIsAllowed` | internal/k8s/adminreach.go:78-81 | The bind reason is exactly being allowed bind on a kind of role or binding |
| `AdminReach.ImpersonateByWhatIsAllowed` | internal/k8s/adminreach.go:82-85 | The impersonate reason is exactly being allowed impersonate on a kind of identity |
| `AdminReach.ClassifyRules` | internal/k8s/adminreach.go:61-88 | The filled map holds exactly the reasons some rule gives |
| `AdminReach.ClassifyRoles` | internal/k8s/adminreach.go:112-120 | One map per role, never shared between roles |
| `AdminReach.LastRoleCounts` | internal/k8s/adminreach.go:112-120 | Of several roles of one key the last one counts |
| `AdminReach.MarkAdmin` | internal/k8s/adminreach.go:124-132 | What a lookup returns does not depend on earlier writes into the shared map |
| `AdminReach.KeysAreInjective` | internal/k8s/adminreach.go:118-138 | Subject and role keys do not collide |
| `AdminReach.Collector.Add` | internal/k8s/adminreach.go:135-147 | One path more for that subject and nothing for any other; a subject is critical exactly when one of its paths is |
| `AdminReach.Collector.AddBinding` | internal/k8s/adminreach.go:154-162 | Every reason for every named subject, in any map order |
| `AdminReach.CollectCluster` | internal/k8s/adminreach.go:154-162 | Exactly the paths of the cluster-wide bindings |
| `AdminReach.CollectNamespaced` | internal/k8s/adminreach.go:170-183 | And those of the namespaced ones |
| `AdminReach.AdminReach` | internal/k8s/adminreach.go:103-198 | A path is reported for a subject exactly when some binding names it and its role's rules give the reason; each subject once; critical subjects before all others, then by name, and paths by binding |
| `AdminReach.ReasonsComeFromRules` | internal/k8s/adminreach.go:103-183 | A subject has a reason exactly when some binding gives it a role with a rule for it, or, for the built-in role, that role itself |
| `AdminReach.CriticalByWhatIsAllowed` | internal/k8s/adminreach.go:61-147 | A subject is critical exactly when it has the built-in role, or a role with a rule that allows everything or a write on bindings |
| `Text.LessIff` | internal/k8s/adminreach.go:186-198 | Names are ordered by their first difference, a prefix first |
| `AdminReach.ReportsAgree` | internal/k8s/adminreach.go:103-198 | Any two reports of one input say the same of every subject: map order cannot matter |
| `AdminReach.ReportsAreMonotone` | internal/k8s/adminreach.go:103-198 | When nobody loses a path, no subject, path or critical mark leaves the report |
| `AdminReach.ExtendedReachesMore` | internal/k8s/adminreach.go:103-198 | With every rule and binding kept, nobody loses a path |
| `AdminReach.AddingARuleExtends` | internal/k8s/adminreach.go:61-88 | Adding a rule to a cluster role or a namespaced role keeps every rule |
| `AdminReach.AddingABindingExtends` | internal/k8s/adminreach.go:154-183 | Adding a binding of either kind keeps every binding |
| `AdminReach.AddingASubjectKeepsPaths` | internal/k8s/adminreach.go:154-183 | Adding a subject to a binding of either kind takes no path from anyone |
| `Rollback.FilterOwned` | internal/k8s/deployments.go:252-296 | The nested loops keep exactly the owned sets |
| `Rollback.OwnedExactly` | internal/k8s/deployments.go:157-170 | Each owned set as often as it is listed, however often it names its owner |
| `Rollback.OwnedInOrder` | internal/k8s/deployments.go:157-170 | In the order of the listing |
| `Rollback.SortByRevision` | internal/k8s/deployments.go:299-305 | The exchange sort returns a descending permutation, in place |
| `Rollback.ListReplicaSets` | internal/k8s/deployments.go:234-312 | The list is a descending permutation of the owned sets |
| `Rollback.Pick` | internal/k8s/deployments.go:176-189 | The loops find the first of the greatest positive revisions below the maximum, or show there is none |
| `Rollback.PickExistsIff` | internal/k8s/deployments.go:172-192 | There is one exactly when two owned sets have different positive revisions |
| `Rollback.Deployment.RollBack` | internal/k8s/deployments.go:139-209 | Succeeds exactly then, given that the calls do, and installs the pick's template; otherwise nothing changes |
| `Rollback.PickIsFirstBelowHead` | internal/k8s/deployments.go:176-192 | The pick's revision is that of the first entry of the sorted list below its head |
| `Rollback.PickIsSecond` | internal/k8s/deployments.go:176-192 | With distinct positive revisions the pick is the second entry of the list |
| `Rollback.UnreadableRevisionIsNoTarget` | internal/k8s/deployments.go:162-192 | Of two sets one of which has no readable revision, neither is gone back to |
| `ExecStream.StreamAdapter.Read` | internal/api/exec.go:121-145 | The bytes returned are the next ones whatever happens; an end of file is passed on exactly when a message just opened is empty; other reads make progress |
| `ExecStream.ReadMany` | internal/api/exec.go:121-145 | Over any sizes and failures the bytes returned are a prefix of the messages joined; without empty messages there is no end of file between them |
| `ExecStream.CopyUntilError` | internal/api/exec.go:121-145 | A consumer that reads to the first error gets exactly the messages before the first empty one |
| `ExecStream.CopyIsCompleteIff` | internal/api/exec.go:121-145 | It gets everything exactly when no byte follows an empty message |
| `DriftTimeline.MatchAudit` | internal/api/drift.go:77-88 | Finds the first match, or shows there is none |
| `DriftTimeline.Attribute` | internal/api/drift.go:55-70 | Every row in its place with its origin |
| `DriftTimeline.DriftHandler.Timeline` | internal/api/drift.go:35-72 | Refused without kind and name, an error for a failing read, otherwise the stored snapshots newest first, whatever the order of the index, attributed against the audit ring's page |
| `DriftTimeline.WindowsPartition` | internal/api/drift.go:56-60 | Every instant a timeline spans lies in exactly one window |
| `DriftTimeline.NoEntryCreditedTwice` | internal/api/drift.go:55-88 | No audit entry is credited to two snapshots |
| `DriftTimeline.CreditIsTheNewestMatch` | internal/api/drift.go:55-88 | External exactly when no listed entry matches in the window; otherwise the first listed match is credited, and it is the newest when the listing is in order of time |
| `DriftTimeline.OriginTells` | internal/api/drift.go:55-88 | The oldest row is initial; another names the user and action of the first listed successful change of this resource since the row before, and is external exactly when none is listed |
| `DriftTimeline.ListedChangeIsNotExternal` | internal/api/drift.go:55-88 | A listed successful change between two snapshots never leaves its snapshot external |
| `DriftTimeline.ExternalByTheRing` | internal/api/drift.go:50-53 | With a ring of the default capacity no entry in it is overlooked |
| `ImageRef.ParsePrintIff` | internal/k8s/imageaudit.go:107-129 | Parsing printed parts gives them back exactly when the registry is host-like without a slash, nothing before the digest holds an at sign, and the colon of the tag is the last |
| `ImageRef.PrintParseIff` | internal/k8s/imageaudit.go:107-129 | Printing a parsed reference gives it back, with docker.io in front when it named no registry, exactly when it has no empty tag and no empty digest |
| `ImageRef.ReparseIff` | internal/k8s/imageaudit.go:107-129 | Parse after print after parse is parse, unless an empty tag hides a colon in the repository |
| `ImageRef.FirstSegmentIff` | internal/k8s/imageaudit.go:113-120 | The first segment is the registry exactly when it is localhost or has a dot or a colon; otherwise docker.io is |
| `ImageRef.NoSlashNoRegistry` | internal/k8s/imageaudit.go:113-120 | A text without a slash names no registry |
| `SizeUnits.ResourceQuantity` | internal/k8s/orphans.go:121-132 | For every 64-bit count of at least 1024 the divisor is the power of 1024 with div <= b < 1024 div, the suffix exists and no product overflows; smaller and negative counts stay plain |
| `SizeUnits.UnitIsUnique` | internal/k8s/orphans.go:121-132 | The unit is the only one that fits, and larger counts never get smaller units |

## Left out

- HTTP handlers, routing, authentication, the React front end, helm and git subprocesses, the LLM client and Postgres: input, output and library calls.
- gzip, JSON, YAML and SHA: gzip is an invertible constructor, marshalled texts and their lengths are free functions, hashed names are injective in the text they hash. Snapshot ids are the nanosecond numbers whose text they are.
- SnapshotRetention.RunIsRetained: assumes snapshots at distinct times; SnapshotInstants says what holds without.
- SnapshotRaces.EveryInterleavingIsSerial: is about the Puts on one resource; Puts on different resources touch different ConfigMaps.
- AuditFlush: models one flusher, the goroutine of Run; the extra Flush of the shutdown path beside it is not modelled.
- ForwardCursor: assumes strictly increasing timestamps and a config that has forwarded nothing at the start; the other signals' events are a count.
- Drain: eviction verdicts and delays are arbitrary; which budget covers a pod is a free function of the pod; the order of the report's lists beyond their contents follows the order of calls.
- Watch: the initial burst of a watch from the empty version has no order, so the no-gap claim starts after it; whether an event's metadata can be read, and its summary, are given with the event.
- Protection: in whole runs one operation's check and write are one step; the Racing lemmas cover other writes in between. Deletes that do not pass the guard are not modelled; server-side apply is any function that makes the manifest's own annotations hold.
- GitOps: what decoding, resolving, reading and the dry run of a document return is given with the document; fetching, planning and applying are given to a reconcile by their results; error texts are numbers.
- Strip: only the maps on the way to the annotations are heap objects; values below them are never written and are plain values.
- AdminReach: resource names of rules and aggregated roles are not looked at by the code either; the role-name key is a pair.
- Rollback: the revision is the number its annotation reads as.
- ExecStream.StreamAdapter.Read: the exact end-of-file condition is for readers that report the end on its own, as those of the WebSocket library do; for others only that a message just opened ended.
- DriftTimeline: times are integers; an audit log in a database is not modelled.
- ImageRef: strings are sequences of characters, as the separators are all single bytes.
- SizeUnits.ResourceQuantity: the decimal text of the quotient is floating-point formatting.
- Reports that are counters and a sort (probes, exposure, readiness, health, posture): only easy members.
