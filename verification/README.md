# Numaplane controller: verified model

Numaplane keeps the resources of a cluster in step with what a Git repository says. A user
creates a GitSync; a reconciler validates it, guards it with a finalizer and puts its key
under watch; an assigner keeps handing watched keys to a pool of workers; a worker resolves
the target revision, labels the manifests, compares them with the live objects and applies
them, and records the commit. This project models the hand-written state machines, indexes,
searches and parsers among that code and proves what they promise. Library calls (the API
client, git, the gitops engine) appear as parameters or as steps of the environment.

`dafny verify dfyconfig.toml` checks everything.

## How it is organised

| file | what it models |
|---|---|
| `Text.dfy` | splitting and joining strings |
| `Rotation.dfy` | the watched keys as a sequence, the rotation, its fairness and its pacing |
| `WatchList.dfy` | the linked list and the map that store the watched keys, and one worker job |
| `Dispatch.dfy` | assigner, workers and reconcilers as processes around one lock and one channel |
| `Deadlock.dfy`, `Pacing.dfy` | from which states the processes still deadlock, and runs that miss the promised pace |
| `SyncRun.dfy` | which way a worker's job goes, and the commit status over many jobs |
| `Conditions.dfy` | phase, message and conditions of a GitSync |
| `Cascade.dfy` | deletion of the live objects of a GitSync |
| `Lifecycle.dfy` | a GitSync against an API server with optimistic concurrency |
| `Controller.dfy` | `Reconcile` in place, on the object, its status and the watched keys |
| `Json.dfy`, `Elements.dfy`, `Normalizer.dfy` | JSON removal, removals that reach into arrays, and the ignore-differences normalizer |
| `Tracking.dfy` | the tracking label and how the cluster cache reads it |
| `Revision.dfy` | from a target revision to a branch |
| `ResourceFilter.dfy` | the resource filter rules |
| `LiveStateCache.dfy` | creation and invalidation of the cluster cache |
| `Agent.dfy` | the agent's configuration and its evaluated Git source |

Code that changes objects in place is modelled by classes whose methods are proved against
specification functions; concurrency is modelled by actions on a state, with `Exec` for the
runs; the theorems are about the specification functions and the runs.

## What came out

Results a reader of the code would not see at once:

- The assigner sends on the channel while it holds the lock that workers need in
  `StopWatching`. `StuckIff` says exactly when nothing moves any more, `DeadlockReachable`
  that it happens for every number of workers without any cancellation, and
  `DeadlockIsPermanent` that nothing ends it. `CanDeadlockIff` says from which states the
  processes by themselves still get there, and `SafeNeverStops` that from all others they
  never stop.
- The comment at `internal/sync/syncer.go:165-166` promises an assignment at most every N
  milliseconds. With l watched keys the pauses of a round total at most max(N, l), and stay
  within N exactly when l does (`PacingBound`); for every N and every number of workers a run
  from the start misses the promise (`PromiseFails`).
- Every reconciliation first sets the Configured condition to Unknown, so a GitSync that
  stays Running gets a new transition time each time (`ReconcileRestampsRunning`).
- The phase Failed is never stored, because a validation failure returns before the status
  update (`StoredVerdicts`).
- Without an edit the finalizer can come off a GitSync, whatever other finalizers it carries,
  exactly when its destination names this cluster (`ReleasableIff`); once it names another,
  the GitSync is never released (`MovedIsNeverReleased`).
- With auto-heal off, a commit whose sync failed is recorded like any other and is not
  retried; the same commit is applied again exactly when the status write was lost
  (`RepeatedIffWriteLost`).
- `getCluster` panics exactly when its settings cannot be loaded, or changed between `Init`
  and the first call (`Cache.GetCluster`, `CallsFollowLoads`). While no call records a change
  as another is about to invalidate, push or create, the cluster's settings are the cached
  ones whenever nobody is in between (`SettingsAgree`), and a change recorded while another is
  still to be pushed can always do harm (`RecordDuringPush`, `RecordDuringCreate`). Two calls that overlap otherwise can
  leave it with older ones, and then no number of calls that load the cached settings
  repairs it (`OverlapLeavesStaleSettings`, `StaleSettingsStay`, `OverlapIsForGood`). The later
  of two changes can also be lost from both (`LaterChangeLost`).
- A half rule without `=` makes the rule parser panic, unless an earlier rule is malformed
  (`ParseRulesOutcome`).
- The tracking label is lost without an error when a manifest's metadata is null
  (`LabelLostIff`), and it knows a GitSync by name only (`ListedByNameAlone`).
- Normalization does not depend on the order of the overrides, provided no pointer leads to
  an array element (`NormalizeOrderIndependent`). With pointers into arrays it can, because a
  removal shifts the elements behind it, and Go visits the overrides in no fixed order
  (`OrderMatters`). `ExchangeIff` says for any document and any two pointers when their order
  is free, `LastTwoIff` what that means for a visit of the overrides. Two elements of one array
  can be exchanged iff the later one is followed by an equal one (`ElementsExchangeIff`); an
  element and a pointer into an element of its array iff the latter is an earlier one, or has
  nothing at its old and at its new place that the pointer leads to
  (`ElementAndPassExchangeIff`).

## Model

| member | source | states |
|---|---|---|
| Rotation.StepKeepsDistinct | internal/sync/syncer.go:106-123 | starts, stops and assigns keep the watched keys distinct; which keys are watched afterwards, both ways |
| Rotation.PositionStep | internal/sync/syncer.go:150-163 | where one start, stop or assign puts a key that it does not stop |
| Rotation.AheadStep | internal/sync/syncer.go:150-163 | until a key is dispatched, the keys ahead of it only lose those dispatched or stopped |
| Rotation.BoundedBypass | internal/sync/syncer.go:150-163 | between two consecutive dispatches of a key that stays watched, any other key is dispatched at most once, and exactly once if it stays watched too |
| Rotation.DispatchedWithin | internal/sync/syncer.go:150-163 | a key at position i is dispatched within i + 1 assigns whatever starts and stops of other keys interleave |
| Rotation.PacingBound | internal/sync/syncer.go:165-187 | pauses between two dispatches of a key total at most max(interval, l); with constant l more than interval - l, and within the interval iff l is |
| Rotation.PauseIs | internal/sync/syncer.go:176-186 | the whole interval when nothing is watched; else the even share rounded down, and at least one millisecond |
| WatchList.List.PushBack | internal/sync/syncer.go:111 | a new node at the end of the ring, everything else linked as before |
| WatchList.List.Remove | internal/sync/syncer.go:120 | removal by handle takes out exactly that node and keeps the links consistent |
| WatchList.List.MoveToBack | internal/sync/syncer.go:158 | the node goes to the end, the others keep their order, links stay consistent |
| WatchList.IndexAppend | internal/sync/syncer.go:107-113 | adding a key to list and map keeps each handle leading to the node of its key |
| WatchList.IndexRemove | internal/sync/syncer.go:116-123 | removing by handle removes exactly that key, from the list as a sequence and from the map |
| WatchList.IndexRotate | internal/sync/syncer.go:150-163 | rotating the list rotates the sequence of keys and leaves the map right |
| WatchList.Syncer.Contains | internal/sync/syncer.go:91-97 | the map answers for the list |
| WatchList.Syncer.Length | internal/sync/syncer.go:99-104 | the number of watched keys |
| WatchList.Syncer.StartWatching | internal/sync/syncer.go:106-113 | refines a start on the sequence of distinct keys |
| WatchList.Syncer.StopWatching | internal/sync/syncer.go:115-123 | refines a stop |
| WatchList.Syncer.Rotate | internal/sync/syncer.go:150-163 | refines an assign and reports the key that was at the front, if any |
| WatchList.Syncer.NextPause | internal/sync/syncer.go:176-186 | the whole interval for no keys, else the even share of the present length |
| WatchList.Syncer.RunOnce | internal/sync/syncer.go:208-307 | one job goes the way that `AppliedIff` and `UnwatchedIff` describe, and un-watches its key in just that case |
| SyncRun.KeyRoundTrip | internal/sync/syncer.go:48-51 | splitting a key recovers namespace and name when neither has a slash |
| SyncRun.UnwatchedIff | internal/sync/syncer.go:225-253 | (helper, reads the branches back) a job un-watches its key iff the GitSync is gone, or is being deleted and its processing succeeded |
| SyncRun.AppliedIff | internal/sync/syncer.go:208-307 | exactly when a job applies the manifests and when it skips, and every field of the commit status it reports |
| SyncRun.NoRepeatedSync | internal/sync/syncer.go:273-305 | with auto-heal off and successful writes no two successive syncs are for one commit, and a synced status has no error |
| SyncRun.RepeatedIffWriteLost | internal/sync/syncer.go:470-514 | the same commit is applied again iff the status write of the sync before was lost |
| SyncRun.AutoHealSyncsAlways | internal/sync/syncer.go:277-305 | with auto-heal on, every round that reaches the check syncs the commit it finds, whatever is recorded; with successful writes the recorded status is that of the last round |
| SyncRun.SyncIsRecorded | internal/sync/syncer.go:470-514 | a sync is recorded whatever was recorded before, with a new time exactly when something else changes; a lost write changes nothing |
| Dispatch.LockOkStep | internal/sync/syncer.go:150-163 | every step keeps lock ownership: the assigner from pick to release, a worker or reconciler only inside its own section |
| Dispatch.SectionsExclude | internal/sync/syncer.go:91-163 | at most one critical section can go on in any reachable state |
| Dispatch.PicksAfterCancel | internal/sync/syncer.go:167-175 | after cancellation the assigner picks at most once more, along every run |
| Dispatch.HandoverConserves | internal/sync/syncer.go:190-206 | received keys are the picked keys in order; a key is watched when received; assign and pause alternate |
| Dispatch.KeyIsHandedOver | internal/sync/syncer.go:150-163 | along any run, a key not stopped is picked within i + 1 assigns, and what is picked along the run is what workers receive |
| Dispatch.RunRefinesRotation | internal/sync/syncer.go:106-123 | every run acts on the watched keys as the rotation run of its critical sections |
| Dispatch.BypassInRuns | internal/sync/syncer.go:150-163 | along any run between two picks of a key that is not stopped, any other key is picked at most once, and exactly once if it stays watched |
| Dispatch.PacingInRuns | internal/sync/syncer.go:165-187 | along any run without stops, the pauses between two picks of a key total at most max(interval, l); with constant l within the interval iff l is |
| Pacing.PromiseFails | internal/sync/syncer.go:165-187 | for every interval and number of workers, a run from the start whose pauses between two picks of one key total more than the interval |
| Dispatch.StuckIff | internal/sync/syncer.go:150-206 | a reachable state has no step of its own iff it is the deadlock at the send or a complete shutdown |
| Deadlock.CanDeadlockIff | internal/sync/syncer.go:150-253 | from a reachable uncancelled state some run of the processes alone deadlocks iff a stale key is, or through a call made already becomes, watched, or some key is and every worker is bound to wait in StopWatching |
| Deadlock.SafeNeverStops | internal/sync/syncer.go:150-253 | from every other such state, along every run of the processes alone, some process can take a step |
| Dispatch.DeadlockIsPermanent | internal/sync/syncer.go:150-163 | no action ends the deadlock, and nothing is dispatched or un-watched again |
| Dispatch.DeadlockReachable | internal/sync/syncer.go:232-253 | for every number of workers a run without cancellation leads to the deadlock, with a key still watched and every worker in StopWatching |
| Dispatch.StaleKeyDrains | internal/sync/syncer.go:225-253 | a stale watched key is picked or stopped within as many assigns as there are keys; from then on it is un-watched, at the send or with a worker, and every worker that received it is still on that job or the key is un-watched |
| Dispatch.HolderUnwatches | internal/sync/syncer.go:225-253 | along any run in which its key stays stale and is not started, a worker on a job for it is still on it, or the key is un-watched |
| Conditions.SetIsMapUpdate | pkg/apis/numaplane/v1alpha1/gitsync_types.go:159-178 | setCondition is a map update that keeps the order and leaves the list alone when only the time would differ |
| Conditions.SetTwice | pkg/apis/numaplane/v1alpha1/gitsync_types.go:159-178 | setting the same condition again changes nothing |
| Conditions.SortedByKindSorts | pkg/apis/numaplane/v1alpha1/gitsync_types.go:176 | the sort is a sorted permutation |
| Conditions.PhaseAlwaysAgrees | pkg/apis/numaplane/v1alpha1/gitsync_types.go:180-226 | after any sequence of InitConditions and Mark calls phase, message and Configured agree; commit status and other conditions are untouched |
| Conditions.LastCallShows | pkg/apis/numaplane/v1alpha1/gitsync_types.go:180-226 | after any sequence of calls phase, message and the one Configured condition are what the last call said, each part in its place |
| Conditions.BelowIsLexicographic | pkg/apis/numaplane/v1alpha1/gitsync_types.go:176 | the order of types is the dictionary order, ascending |
| Conditions.ReconcileRestampsRunning | pkg/apis/numaplane/v1alpha1/gitsync_types.go:180-214 | InitConditions followed by MarkRunning always stamps a new transition time |
| Conditions.GitSyncStatus.SetCondition | pkg/apis/numaplane/v1alpha1/gitsync_types.go:159-178 | for any list: unchanged if held, else the sorted permutation of the other types and the stamped condition |
| Conditions.GitSyncStatus.InitConditions | pkg/apis/numaplane/v1alpha1/gitsync_types.go:180-184 | the specified status change |
| Conditions.GitSyncStatus.MarkRunning | pkg/apis/numaplane/v1alpha1/gitsync_types.go:210-214 | the specified status change |
| Conditions.GitSyncStatus.MarkFailed | pkg/apis/numaplane/v1alpha1/gitsync_types.go:216-220 | the specified status change |
| Conditions.GitSyncStatus.MarkNotApplicable | pkg/apis/numaplane/v1alpha1/gitsync_types.go:222-226 | the specified status change |
| Cascade.Client.DeleteResource | internal/util/kubernetes/kubernetes.go:107-117 | an absent object counts as deleted; a refused deletion changes nothing |
| Cascade.Client.DeleteManagedObjects | internal/util/kubernetes/kubernetes.go:127-135 | in any order: all listed objects go, or a part without the refused one; it succeeds iff none is refused |
| Cascade.Client.CascadeDeletion | internal/sync/syncer.go:530-542 | the same for the objects listed under the name, nothing when they cannot be listed |
| Cascade.Client.ProcessGitSyncDeletion | internal/sync/syncer.go:544-554 | the cascade when the configuration asks for it |
| Cascade.CascadeScope | internal/sync/syncer.go:530-554 | deletion processing touches no object tracked otherwise, and none when cascading is off; when it succeeds, iff, and what is then left |
| Cascade.RetryCompletes | internal/sync/syncer.go:530-554 | a failed partial deletion can be retried to the same end |
| Lifecycle.DecisionOk | internal/controller/gitsync_controller.go:99-107 | a reconciliation keeps version, identity, spec and commit status, and its verdict agrees with the branch it took |
| Lifecycle.DecisionOnFinalizers | internal/controller/gitsync_controller.go:134-177 | (helper, reads the branches back) exactly when it aborts; it changes no finalizer but its own, which is there iff the object is not being deleted, and none for another cluster |
| Lifecycle.FinalizerRoundTrip | internal/controller/gitsync_controller.go:152-168 | the finalizer is added once, behind the others, and removing it leaves the others in their order |
| Lifecycle.NoLostStatusUpdate | internal/controller/gitsync_controller.go:88-126 | over every interleaving the stored commit status is the last a worker wrote, and the stored verdict the last Reconcile wrote |
| Lifecycle.StoredVerdicts | internal/controller/gitsync_controller.go:104-126 | what is stored is blank, or Running or NotApplicable with agreeing conditions |
| Lifecycle.RunningIsGuarded | internal/controller/gitsync_controller.go:109-126 | an object stored as Running carries the finalizer until its deletion processing succeeds |
| Lifecycle.ReconcileCompletes | internal/controller/gitsync_controller.go:88-126 | one undisturbed reconciliation stores the finalizer and Running, or not applicable, with the condition that belongs to it; spec and commit status are kept |
| Lifecycle.RecordingCompletes | internal/sync/syncer.go:470-514 | one undisturbed recording stores the commit, with a new time iff something else changed, and nothing else |
| Lifecycle.DeletionCompletes | internal/controller/gitsync_controller.go:143-156 | one undisturbed reconciliation of a deleted object that can list and delete everything takes the finalizer off, with nothing tracked left; the object vanishes iff it has no other finalizer |
| Lifecycle.FinalizerSafety | internal/controller/gitsync_controller.go:143-156 | an object whose finalizer Reconcile stored vanishes only after its deletion processing succeeded, with what that did |
| Lifecycle.MovedIsNeverReleased | internal/controller/gitsync_controller.go:137-140 | an object with the finalizer and another cluster stays stored through every run without an edit |
| Lifecycle.ReleasableIff | internal/controller/gitsync_controller.go:134-156 | from any reachable state, some run without an edit takes the finalizer off a stored object iff its cluster is this one |
| Controller.GitSyncReconciler.Release | internal/controller/gitsync_controller.go:145-151 | deletion processing, then un-watching just when it succeeded |
| Controller.GitSyncReconciler.Reconcile | internal/controller/gitsync_controller.go:134-177 | the object in place becomes what the decision says, and the watched keys follow |
| Controller.WatchedAfterIs | internal/controller/gitsync_controller.go:134-177 | afterwards the key is watched iff the GitSync is valid, undeleted and of this cluster, or was watched and not processed for deletion here; the other keys stay, in their order |
| Controller.RunningIsWatched | internal/controller/gitsync_controller.go:168-177 | a GitSync that comes out as Running is watched |
| Json.SameEverywhere | internal/sync/diff.go:161-175 | documents that show the same at every path are equal |
| Json.AtApply | internal/sync/diff.go:166-175 | one removal, applied or skipped, hides exactly the subtree at its path |
| Json.Kernel | internal/sync/diff.go:166-175 | two documents come out equal iff they agree outside the removed paths |
| Json.OrderIndependent | internal/sync/diff.go:166-175 | only the set of paths matters |
| Json.RemovedForGood | internal/sync/diff.go:166-175 | no removed path resolves afterwards; removing again changes nothing |
| Elements.ExchangeIff | internal/sync/diff.go:166-175 | for any document and any two paths, exactly when the two removals give the same in both orders |
| Elements.ElementsExchangeIff | internal/sync/diff.go:166-175 | removing two elements of an array anywhere in a document commutes iff the later one is followed by an equal element |
| Elements.ElementAndPassExchangeIff | internal/sync/diff.go:166-175 | removing an element and something inside an element of the same array commutes iff the latter comes earlier, or the pointer finds nothing at its old (unless it is the removed one) and at its new place |
| Normalizer.PointerRoundTrip | internal/sync/diff.go:24-25 | every path has a pointer that names it |
| Normalizer.UnescapeMeans | internal/sync/diff.go:24-25 | the escapes of section 3 of RFC 6901 mean tilde and slash; all other text stands for itself |
| Normalizer.NoPointerRemovesNothing | internal/sync/diff.go:166-175 | text that is no pointer, and the empty pointer, remove nothing |
| Normalizer.KeySays | internal/sync/diff.go:46-59 | what an override key says: group and kind, kind alone, or nothing |
| Normalizer.ResourceSays | internal/sync/diff.go:146-150 | the group and kind of a resource, from its apiVersion with or without a group |
| Normalizer.NewIgnoreNormalizer | internal/sync/diff.go:97-137 | the patches are those of some order of visiting the map, and exactly those some override asks for |
| Normalizer.VisitedIsPatchesOf | internal/sync/diff.go:97-135 | every order of visiting the map gives exactly the patches asked for |
| Normalizer.IgnoreNormalizer.Normalize | internal/sync/diff.go:141-182 | the resource becomes its specified normal form; nil is an error |
| Normalizer.NormalizeKernel | internal/sync/diff.go:141-182 | two resources matched by the same patches normalize alike iff they agree outside the ignored pointers |
| Normalizer.NormalizeScope | internal/sync/diff.go:141-182 | nothing at or below an ignored pointer is left, everything else is as before |
| Normalizer.NormalizeRemovesIff | internal/sync/diff.go:97-182 | from the overrides to the result, in any order of visiting: a path shows nothing iff an override whose group and kind both match ignores it or something above it, else what it showed |
| Normalizer.NormalizeOrderIndependent | internal/sync/diff.go:97-135 | the result is the same for every order in which the overrides are visited |
| Normalizer.LastTwoIff | internal/sync/diff.go:97-182 | exchanging the last two keys visited leaves the result of normalizing unchanged iff their removals can be exchanged in what the others leave |
| Normalizer.ElementOrderIff | internal/sync/diff.go:97-182 | two overrides for elements of one array: both orders of visiting them normalize alike iff the later element is followed by an equal one |
| Normalizer.OrderMatters | internal/sync/diff.go:97-182 | a resource and two overrides that two orders of visiting normalize differently |
| Tracking.RelabelledIsTracked | internal/util/kubernetes/kubernetes.go:45-74 | relabelling fails iff the labels are malformed; else the label reads back, other labels and everything outside metadata are kept |
| Tracking.RelabelledShows | internal/sync/syncer.go:432-446 | the relabelled object shows the name and the namespace at their paths, no namespace when it is empty, and everything else as before |
| Tracking.RelabelFailsIff | internal/util/kubernetes/kubernetes.go:45-74 | exactly which metadata and labels make relabelling fail |
| Tracking.LabelLostIff | internal/util/kubernetes/kubernetes.go:45-59 | the label is silently lost iff the metadata is null |
| Tracking.ApplyLabelAndNamespace | internal/sync/syncer.go:432-446 | all manifests get the label and the namespace in place and keep the rest, or one has malformed labels and only some are relabelled |
| Tracking.ListedByNameAlone | internal/sync/cache.go:424-432 | an applied object is listed for exactly the GitSyncs of its name |
| Tracking.ListedIff | internal/sync/cache.go:208-252 | a live object is listed for a name iff it has no owner, well-formed labels, and the name as its tracking label |
| Revision.LogContains | internal/git/util.go:385-395 | the walk finds a commit only if it is reached, and misses it only if it is not; it errs only on broken history |
| Revision.FirstBranchIff | internal/git/util.go:376-413 | there is at most one first branch; on complete history there is one iff some head reaches the commit |
| Revision.FindFirstBranchContaining | internal/git/util.go:478-508 | the search returns that branch, or none only if there is none |
| Revision.FindFirstBranchContainingTag | internal/git/util.go:365-414 | the same for the commit of a tag that refers to a commit |
| Revision.FindFirstBranchContainingCommit | internal/git/util.go:465-509 | the same for a commit |
| Revision.Choose | internal/git/util.go:422-446 | branch, then tag, then commit, both ways |
| Revision.Repository.CheckoutRepo | internal/git/util.go:416-447 | the head moves, if at all, to the named branch or the first one containing the target; on complete history to exactly the choice, and it fails iff there is none that the worktree accepts |
| Revision.Repository.FetchUpdates | internal/git/util.go:273-300 | when nothing is fetched or checked out; on complete history the head ends on exactly the choice, or the fetch failed, or there is none that the worktree accepts |
| ResourceFilter.ParseResourceFilter | internal/sync/cache.go:393-418 | the loop computes the specified outcome |
| ResourceFilter.ParseRulesOutcome | internal/sync/cache.go:400-415 | success, error and panic, each iff: the first rule that is not good decides |
| ResourceFilter.ParsePrint | internal/sync/cache.go:387-418 | parsing printed rules returns the rules |
| ResourceFilter.JudgeTwoHalves | internal/sync/cache.go:400-415 | a rule with two values is good iff its names are group and kind in any case, and means its values |
| ResourceFilter.JudgeMissingValue | internal/sync/cache.go:400-415 | without a value it panics iff both names are right |
| ResourceFilter.JudgeOtherParts | internal/sync/cache.go:400-405 | one part or more than two is malformed |
| ResourceFilter.PrintedExcludesIff | internal/sync/cache.go:387-468 | what printed rules exclude: iff the list has neither the group with the kind nor the group with no kind |
| ResourceFilter.JoinExcludesBoth | internal/sync/cache.go:387-468 | joined rule strings exclude exactly what both exclude |
| ResourceFilter.RulesFormASet | internal/sync/cache.go:456-468 | neither order nor repetition of rules changes what is excluded |
| ResourceFilter.IsExcludedResource | internal/sync/cache.go:456-468 | excluded iff no rule names its group and kind, or its group and no kind |
| LiveStateCache.Cache.Init | internal/sync/cache.go:357-365 | the settings are the loaded ones, or an error and no change |
| LiveStateCache.LoadReads | internal/sync/cache.go:367-385 | settings are read iff the configuration is readable and its rules parse, and printed rules are read as they are |
| LiveStateCache.Cache.GetCluster | internal/sync/cache.go:125-206 | when it panics, iff; otherwise the one cluster; the new value of the cache is that of a call on values |
| LiveStateCache.CallsFollowLoads | internal/sync/cache.go:137-206 | a series of calls survives iff the first load is what Init loaded; then the cluster's settings are always the last loaded |
| LiveStateCache.OneCluster | internal/sync/cache.go:155-206 | over every interleaving at most one cluster is created and every call returns it |
| LiveStateCache.CallAlone | internal/sync/cache.go:125-206 | in the interleaved system a call that runs alone is the call on values |
| LiveStateCache.SettingsAgree | internal/sync/cache.go:125-206 | over every run in which no change is recorded while another call invalidates, pushes or creates, the cluster's settings are the cached ones whenever nobody is in between |
| LiveStateCache.RecordDuringPush | internal/sync/cache.go:125-153 | from every reachable state with a cluster in which a call is about to record a change while another has a different one to push, and saw the cluster if it has read it already, some run leaves the cluster's settings not the cached ones |
| LiveStateCache.RecordDuringCreate | internal/sync/cache.go:125-206 | the same without a cluster, for a call about to create it with other settings |
| LiveStateCache.OverlapLeavesStaleSettings | internal/sync/cache.go:125-153 | from the start, for any two callers or more, a run after which every call has returned and the cluster's settings are older than the cached ones |
| LiveStateCache.StaleSettingsStay | internal/sync/cache.go:137-162 | every run of calls that load the cached settings leaves the cluster's settings as they are |
| LiveStateCache.OverlapIsForGood | internal/sync/cache.go:125-162 | after that run, no run of calls that load the cached settings repairs the cluster's |
| LiveStateCache.LaterChangeLost | internal/sync/cache.go:125-153 | from the start, a run that passes a state with the later settings cached and with the cluster, begins no call after it, and ends with the older ones in both places |
| Agent.ConfigManager.OnConfigChange | internal/agent/config.go:89-99 | a reload publishes the next revision |
| Agent.ConfigManager.GetConfig | internal/agent/config.go:110-118 | configuration and revision read together are a published pair |
| Agent.AgentSyncer.CheckConfigUpdate | internal/agent/agent_syncer.go:91-109 | the copy is taken iff the revision moved; a failed copy loses the configuration and keeps the revision |
| Agent.AgentSyncer.EvaluateGitSource | internal/agent/agent_syncer.go:112-149 | after every error-free evaluation the held source is a fresh one of a published configuration, and no reload is missed |

## Left out

- Cloning, pulling, helm, kustomize, reading files and secrets, metrics and logging: foreign calls. Of `fetchUpdates` only the decision what to fetch and check out is modelled.
- The gitops engine's comparison and sync are one step of `SyncRun` with a result; its cluster cache is exact and up to date in `Cascade`.
- Credential lookup by normalized URL (`internal/util/git/git.go:191-210`): its core is a foreign URL parser, and what remains is a search with an early return.
- Goroutine scheduling fairness: `StuckIff` says when a step exists, not that the scheduler takes it. Pending writers that block new readers of the lock are not modelled; there is one reader.
- SyncRun: the second deletion check at `internal/sync/syncer.go:296-303` looks at the same copy as the first, so its branch cannot be taken and is not modelled. In a series of runs the GitSync exists throughout; one that is gone reads as having no status and is not written.
- Dispatch: the body of a job is one step; its API calls interleave with other processes in `Lifecycle`, not there.
- Lifecycle: one GitSync name; deletion processing is one step, so an object applied by a worker in the middle of it, or afterwards from an old copy, is a later change of the cluster by the environment. Objects with finalizers of their own vanish at once.
- Lifecycle.FinalizerSafety: nobody but this controller removes its finalizer, and there is a syncer; without one the finalizer is dropped without processing, as in the code.
- Validation of a spec, the namespace pattern and the messages it produces: one boolean of the spec.
- Conditions: where the list holds several conditions of one type, which the code never produces, the sort keeps them in order of arrival; Go's sort promises no order.
- Json: numbers are kept as text. Array indices follow section 4 of RFC 6901, without leading zeros or signs. Results need pointers that do not lead to array elements, see `ExchangeIff` for those that do.
- Normalizer: a pointer that does not begin with a slash is taken to fail, as section 3 of RFC 6901 has it. Failures of encoding and decoding a resource are not modelled. Patches carry neither name nor namespace, which `NewIgnoreNormalizer` never sets.
- Glob matching of group and kind is an arbitrary predicate.
- Revision: commits form a map to their parents; reading text as a hash is an arbitrary function; a tag object is a hash that is no commit. Where history is incomplete the search may fail although a later branch contains the commit, as in the code.
- Revision.Repository.CheckoutRepo: `Checkout` is go-git's; the worktree refuses a fixed set of branches, and whether a refused checkout has already moved the head is left open (`headFirst`). With it moved, the later results speak of where it went.
- ResourceFilter: case folding covers the letters of "group" and "kind".
- Agent: template evaluation is an arbitrary function that may fail; the key/values of a source are readings with a flag. `EvaluateGitSource` relies on that flag only when the configuration did not change.
