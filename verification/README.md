# Verified model of the Kruise controllers

This project models the parts of Kruise whose correctness depends on more than one step: protocols between webhooks,
controllers, lagging caches and the API server, and the planning algorithms those controllers run. Each protocol is a
state machine whose steps interleave freely (`Enabled`, `Fire`, `Runs`); theorems about it hold of every run. Each
algorithm that the source writes as a loop is a method with its loop, proved against a specification function or a
direct statement of what it is for.

| module | part of Kruise |
|---|---|
| `PubStatus`, `PubProtocol`, `PubLedger` | PodUnavailableBudget: check-and-decrement, recalculation, concurrent admission by compare-and-swap, the budget across recalculations |
| `BroadcastJobPods`, `BroadcastJobPhase` | BroadcastJob: the computations of one reconcile, finishing once |
| `BroadcastJobProtocol`, `BroadcastJobDuplicates`, `BroadcastJobOvershoot`, `StuckExpectations` | BroadcastJob over time: one pod per node and when it fails, parallelism, when it can act again |
| `CrrLease`, `PodReadiness` | ContainerRecreateRequest: the not-ready lease on a pod; the readiness condition |
| `LaunchBarrier` | container launch priority: keys released in order, and all of them |
| `DaemonPlan`, `DaemonSync` | Advanced DaemonSet: the plan for a node, carrying it out |
| `DaemonDeletionEvents`, `DaemonExpectations` | Advanced DaemonSet: counting deletions, and the expectation counters while events arrive |
| `CronSchedule`, `CronHistory` | AdvancedCronJob: the missed-run search, and runs started over the life of the object |
| `RevisionHistory`, `RevisionRuns` | CloneSet revision history: look-up, rollback, creation, truncation |
| `LabelSelectors`, `SelectorSatisfiability` | the two selector overlap tests, against satisfiability by a label map |
| `SlowStart` | batches that double until something fails |
| `PartitionReplicas` | partition arithmetic and the CloneSet status |
| `Prelude`, `Machines`, `Sorting` | shared vocabulary, runs of state machines, a sort used through its contract |

## Where the code does not do what is expected of it

Each of these is a lemma with a failing input or run, next to the exact condition under which the expectation holds.

- A BroadcastJob can get two pods on one node. A create call that returns an error is observed in the expectations at
  once, timeouts included, so a pod that was stored all the same is not waited for (`LostCreateDuplicates`). The
  comment in `reconcilePods` says that a timed-out create will be observed later by the informer; `createPod` has then
  already observed it. One pod per node holds with lost replies as long as every list covers the existing pods
  (`CoveredListsAreEnough`). A reconcile that has listed can lead to two pods on a node if and only if it takes a node
  for vacant that is not, and its counter leaves room for a pod or will once its deletions have succeeded
  (`DuplicatesIff`, `ListDuplicatesIff`).
- A BroadcastJob can exceed its parallelism, because deleting a pod lowers the active counter even if the pod had
  already finished (`DeletingFinishedPodExceedsParallelism`). Before its create loop, a reconcile can exceed it if and
  only if it is exceeded already, or the counter stands below the parallelism and below the number of active pods
  while there are nodes enough (`OvershootsIff`, `OvershootsIffCounterLow`); over a whole run it is exceeded by no more
  than the number of such deletions (`ActiveWithinParallelism`).
- A BroadcastJob can be blocked for good. A pod that shows up already terminating is reported as a deletion, so its
  creation stays expected, and an expectation that has expired still keeps the job from acting
  (`TerminatingArrivalBlocks`). A run leads there from every settled state with a vacant node and room for a pod: the
  pod is asked to terminate before the handler has been notified of it (`SettledJobCanBlock`). An idle job can act again
  if and only if everything it expects can still be observed (`CanActAgainIff`), and always can if each notification is
  that of the next event and no pod shows up terminating (`AttendedNeverBlocks`).
- A ContainerRecreateRequest can leave its not-ready key on a live pod for good: the key is removed from a cached copy
  of the pod, and a copy that does not show the key yet makes the removal a silent success, after which the finalizer
  goes (`KeyCanLeak`). Removal works if and only if the cached pod shows the key (`EraseKeyWorksIffObserved`), and a
  reconcile can lead to a leak if and only if it is about to remove a key that the cached pod does not show
  (`LeaksIffUnobserved`).
- An AdvancedCronJob whose history limit is zero starts a run again that it has already started; the scheduled times
  started strictly increase in every life if and only if neither limit is zero (`NeverRepeatsIffHistoryKept`).
- The starting deadline of an AdvancedCronJob is checked a second time after the missed-run search; that check can
  never reject anything, for any deadline (`NeverTooLate`).
- The revision of a CloneSet template can be stored twice. The hash label carries the collision count of the moment,
  and two labels that read as different numbers make equal contents unequal. So two templates whose names collide at
  the first two probes, with labels that read as different numbers, suffice (`CollidingTemplatesStoreTwice`); with the
  FNV-1 hash of the repository, whose last step mixes in the digit of the probe, a collision at the first probe is one
  at the second. A look-up stores a content twice if and only if the labels clash and the name found is free
  (`StoredTwiceIff`), and along a run every update revision is sound if and only if every reconcile recognises its
  template (`RunSoundIffRecognised`), which it does as long as the names of the templates differ
  (`DifferentNamesStaySound`).
- The DaemonSet's expectations can be fulfilled too early, in two ways. A create call that returns an error is counted
  at once, timeouts included, and counted again if the pod was stored all the same and shows up, in the place of a pod
  that has not been reported (`LostReplyFulfils`). The deletion of a pod by somebody else, or the second counting of a
  pod, takes the place of a deletion that has not been reported (`ForeignDeletionMasks`, `ForeignDeletionFulfils`). When
  the sync is over, they are fulfilled with pods missing if and only if the deletions are fulfilled and such pods are at
  least as many as the pods missing and the creations refused by a namespace being torn down (`MissingMaskedIff`); with
  deletions missing if and only if the creations are fulfilled and such countings are at least as many as the deletions
  missing (`MaskedIff`).
- A daemon pod first seen with a deletion timestamp is counted twice by the time it is gone; a pod is counted once if
  and only if it was first seen without one (`CountedOnceIffFirstSeenAlive`).
- `IsSelectorOverlapping` calls two selectors disjoint if one wants a key to exist that the other does not demand,
  although a label map satisfies both (`ExistsMisjudged`); that is its only error on selectors with one requirement
  per key. With several requirements on one key it can call overlapping what no label map satisfies
  (`RepeatedKeyMisjudged`). Without Exists it is wrong if and only if no requirement clashes with what the other
  selector demands and yet some key, one on which a single selector has two requirements or an In without values, admits
  no value under all of its requirements (`OverlapWrongIff`). The comment above the function lists "a not in [b]" and
  "a does not exist" as not overlapping; the code calls them overlapping, which agrees with label maps, and the model
  follows the code.
- With surge, a comment in `podsShouldBeOnNode` lets two pods stay while the current one is not ready; the code lets
  them stay while it is not available. The model follows the code.
- A partition written as "100.0%" instead of "100%" lets one pod go (`HundredWrittenOtherwise`); it is the only
  exception to monotonicity in the percentage (`PartitionMonotoneInPercentage`).

## Model

| member | source | states |
|---|---|---|
| PubStatus.PodUnavailableBudget.CheckAndDecrement | pkg/control/pubcontrol/pub_control_utils.go:193-218 | refuses on an exhausted budget or too many records and then leaves the copy alone, otherwise takes one unit and records the pod in the map of its operation |
| PubStatus.DecrementedAccounts | pkg/control/pubcontrol/pub_control_utils.go:193-218 | a charge costs exactly one unit, never takes the counter below zero, adds the pod to exactly one map, and leaves at most one record more than the limit |
| PubStatus.ChargeExactly | pkg/control/pubcontrol/pub_control_utils.go:193-218 | refused exactly if nothing is allowed or more than 2000 records are held; otherwise the pod is recorded with the present time in the map of its operation, and no other record or number changes |
| PubStatus.ReplayPays | pkg/control/pubcontrol/pub_control_utils.go:193-218 | any accepted series of charges costs its length, and the two maps together never outgrow the limit by more than one |
| PubStatus.ReplayRecords | pkg/control/pubcontrol/pub_control_utils.go:193-218 | after any accepted series each map holds exactly the old records and the pods charged for its operation |
| PubStatus.BuildDisruptedAndUnavailablePods | pkg/controller/podunavailablebudget/podunavailablebudget_controller.go:415-466 | keeps exactly the records of active pods that are still inside their waiting time |
| PubStatus.CountAvailablePods | pkg/controller/podunavailablebudget/podunavailablebudget_controller.go:362-386 | counts exactly the active, available pods that are not recorded |
| PubStatus.SyncStatus | pkg/controller/podunavailablebudget/podunavailablebudget_controller.go:250-339 | publishes the number of counted pods above the desired number, or zero, together with the kept records |
| PubStatus.RecalculatedShrinksRecords | pkg/controller/podunavailablebudget/podunavailablebudget_controller.go:415-466 | a recalculation never adds records |
| PubStatus.PublishedExactly | pkg/controller/podunavailablebudget/podunavailablebudget_controller.go:250-339 | the published number is what the active, available pods without a kept record exceed the desired number by, or zero |
| PubStatus.KeptExactly | pkg/controller/podunavailablebudget/podunavailablebudget_controller.go:415-466 | a record is kept, with its time, exactly if its pod is listed active and it is at most 20 seconds old for a disruption, 10 for an update |
| PubProtocol.CommitIsAtomic | pkg/control/pubcontrol/pub_control_utils.go:97-177 | an update that gets through is one check-and-decrement of the status stored at that moment, however old the copy was when it was read |
| PubProtocol.StepRefinesAtomicCounter | pkg/control/pubcontrol/pub_control_utils.go:97-177 | every step of the concurrent protocol is one step of an atomic bounded counter on the stored status |
| PubProtocol.AdmissionsWithinBudget | pkg/control/pubcontrol/pub_control_utils.go:61-191 | for every run: operations admitted since a write of the controller are at most the stored charges, these at most the published number, and the stored status is the published one with the charges applied one at a time |
| PubProtocol.StatusAlwaysBounded | pkg/control/pubcontrol/pub_control_utils.go:97-177 | for every run: no stored version has a negative counter or more than one record past the limit |
| PubProtocol.ChargesOnRecord | pkg/control/pubcontrol/pub_control_utils.go:193-218 | for every run: each charge of the running epoch is on record in the map of its operation |
| PubProtocol.DesiredPodsLeft | pkg/control/pubcontrol/pub_control_utils.go:61-191 | for every run: of the pods the controller counted, at least the desired number is left after all paid disruptions |
| PubProtocol.FreeIff | pkg/control/pubcontrol/pub_control_utils.go:61-90 | an operation is admitted without charge exactly if the pod is exempt, or the budget read wants nothing available or has the pod on record |
| PubProtocol.ReadDecides | pkg/control/pubcontrol/pub_control_utils.go:97-161 | the first attempt is decided on the newer of the two cached versions, a later one on the stored object: denied exactly if that version refuses, a dry run admitted otherwise, anything else goes on to be stored |
| PubProtocol.ConflictRetries | pkg/control/pubcontrol/pub_control_utils.go:161-177 | a conflict leads to another attempt on the stored object, the fourth one to a denial |
| PubProtocol.FailedCallDenies | pkg/control/pubcontrol/pub_control_utils.go:161-191 | any other failing call denies, and so does a lost reply; a stored charge admits |
| PubProtocol.AdmittedIfAllowed | pkg/control/pubcontrol/pub_control_utils.go:61-191 | from every state whose stored budget allows it, a hook left alone gets its operation paid for and admitted |
| PubLedger.LetGoExactly | pkg/controller/podunavailablebudget/podunavailablebudget_controller.go:415-466 | a recalculation drops the records of exactly the pods that are not listed active any more or whose records have expired |
| PubLedger.RunKeepsRecorded | pkg/control/pubcontrol/pub_control_utils.go:193-218 | along every run, across any number of writes of the controller, a pod paid for and not let go of since is on record |
| PubLedger.DesiredPodsLeftAcross | pkg/controller/podunavailablebudget/podunavailablebudget_controller.go:250-339 | for every run: of the pods the controller last counted, the desired number (or all, if it counted fewer) is left after removing every pod paid for in any epoch and not let go of since |
| PubLedger.DesiredPodsLeftOfAllCharged | pkg/controller/podunavailablebudget/podunavailablebudget_controller.go:250-339 | for every run in which each list shows the recorded pods active and inside their waiting time: the same after removing every pod charged in any epoch |
| PubLedger.FreeOnlyForGoodReason | pkg/control/pubcontrol/pub_control_utils.go:61-90 | for every run: a hook ends up admitted without charge if and only if its pod is exempt, or the version it saw when it began wants nothing available or has the pod on record, and a pod on record has been charged in some epoch |
| SlowStart.CallBatch | pkg/util/tools.go:49-75 | counts the failures of one batch, which are some exactly if a call of the batch fails |
| SlowStart.SlowStartBatch | pkg/util/tools.go:49-75 | calls exactly the indices of one prefix once each, returns how many of them succeeded, and reports no error exactly if all succeeded |
| SlowStart.AttemptedIsPrefix | pkg/util/tools.go:49-75 | the calls made end at the total or with a batch that holds a failure |
| SlowStart.SlowStartLaw | pkg/util/tools.go:49-75 | failures never exceed the calls of earlier batches, which all succeeded, plus the initial batch size; without a failure everything is called |
| SlowStart.StopsAtBatchEnd | pkg/util/tools.go:49-75 | batches double: calls stop at the total or at the end of the first batch with a failure, where batches end at 1, 3, 7, ... times the initial size |
| SlowStart.FailuresAreCounted | pkg/util/tools.go:49-75 | the failures counted are the number of calls that fail |
| BroadcastJobPods.IsPodFailed | pkg/controller/broadcastjob/broadcastjob_utils.go:69-85 | true exactly if all restarts of all containers together exceed the limit of a pod that restarts on failure |
| BroadcastJobPods.FilterPods | pkg/controller/broadcastjob/broadcastjob_utils.go:45-66 | the three lists are the pods of the three classes in list order: succeeded by phase; failed by phase or, not terminating, by too many restarts; active the rest that is not terminating |
| BroadcastJobPods.ClassesPartitionPods | pkg/controller/broadcastjob/broadcastjob_utils.go:45-66 | each pod is in the list of its class as often as it was listed, and in no other |
| BroadcastJobPods.LastListedStands | pkg/controller/broadcastjob/broadcastjob_controller.go:553-566 | a node of the map has the last pod listed on it |
| BroadcastJobPods.ListedNodesStoodFor | pkg/controller/broadcastjob/broadcastjob_controller.go:553-566 | every node with a listed pod is in the map |
| BroadcastJobPods.GetNodeToPodMap | pkg/controller/broadcastjob/broadcastjob_controller.go:553-566 | the loop builds that map |
| BroadcastJobPods.GetNodesToRunPod | pkg/controller/broadcastjob/broadcastjob_controller.go:516-549 | which nodes are desired, which still need a pod (each once), and which pods are to go, said directly in terms of fitness |
| BroadcastJobPods.IsJobComplete | pkg/controller/broadcastjob/broadcastjob_controller.go:477-494 | complete exactly if the policy allows it, some node is desired, and each desired node has a pod that is done |
| BroadcastJobPods.RestMeansIncomplete | pkg/controller/broadcastjob/broadcastjob_controller.go:516-549 | a reconcile with a node left to run a pod on has a desired node without a pod |
| BroadcastJobPods.CreateBatch | pkg/controller/broadcastjob/broadcastjob_controller.go:428-457 | of a batch, counts as started what did not time out, and reports an error exactly if a creation was refused |
| BroadcastJobPods.TimeOutsAreCounted | pkg/controller/broadcastjob/broadcastjob_controller.go:428-457 | the time-outs counted are the number of calls that time out |
| BroadcastJobPods.RefusalsAreRefused | pkg/controller/broadcastjob/broadcastjob_controller.go:428-457 | a call counts as an error exactly if it was refused |
| BroadcastJobPods.ReconcilePods | pkg/controller/broadcastjob/broadcastjob_controller.go:389-474 | creates on a prefix of the remaining nodes decided by slow start, at most the free parallelism; the active counter rises by the attempts that did not time out |
| BroadcastJobPods.DeleteJobPods | pkg/controller/broadcastjob/broadcastjob_controller.go:646-678 | each successful deletion moves one unit from active to failed, whatever the pod was |
| BroadcastJobProtocol.AtMostOnePodPerNode | pkg/controller/broadcastjob/broadcastjob_controller.go:167-174 | in every reachable state of API server, lagging cache, lagging handler and expectations the job has at most one pod per node, if a failing create creates nothing |
| BroadcastJobProtocol.ExpectedKept | pkg/controller/broadcastjob/broadcastjob_controller.go:712-720 | every step keeps: a creation not yet notified is still expected, and no two such creations share a node |
| BroadcastJobProtocol.ExpectedCovers | pkg/controller/broadcastjob/broadcastjob_event_handler.go:38-58 | when nothing is expected the cache shows every existing pod of the job |
| BroadcastJobProtocol.ActiveWithinParallelism | pkg/controller/broadcastjob/broadcastjob_controller.go:303-316 | in every reachable state the active pods exceed the parallelism by at most the deletions of pods that were not active, so never if there were none |
| BroadcastJobProtocol.CountsFromTheList | pkg/controller/broadcastjob/broadcastjob_controller.go:236-248 | a reconcile starts out from the pods its cache shows active and counts them; a successful deletion takes one off, and counts as wasted exactly if the pod was not among them |
| BroadcastJobDuplicates.CoveredListsAreEnough | pkg/controller/broadcastjob/broadcastjob_controller.go:516-549 | with lost replies too, one pod per node holds along every run whose lists cover the existing pods |
| BroadcastJobDuplicates.DuplicatesIff | pkg/controller/broadcastjob/broadcastjob_controller.go:389-474 | from every state of a reconcile before its create loop with at most one pod per node: it can lead to two pods on a node if and only if a node it takes for vacant is not, and the counter, lowered for every deletion that can succeed, is below the parallelism |
| BroadcastJobDuplicates.ListDuplicatesIff | pkg/controller/broadcastjob/broadcastjob_controller.go:516-549 | from every state with at most one pod per node, for every list and choice of nodes and deletions: two pods on a node can follow if and only if an existing pod is on a chosen node and there is room, or the deletions make room |
| BroadcastJobDuplicates.UncoveredListDuplicates | pkg/controller/broadcastjob/broadcastjob_controller.go:516-549 | from any list that misses a pod's node, with room for a pod before or after the deletions, a run leads to two pods on that node |
| BroadcastJobDuplicates.LostCreateDuplicates | pkg/controller/broadcastjob/broadcastjob_controller.go:712-720 | from any settled state with a free node and room, one create error for a pod that was stored leads to two pods on a node |
| BroadcastJobOvershoot.WithinReach | pkg/controller/broadcastjob/broadcastjob_controller.go:389-474 | however a reconcile goes on after its deletions, lost replies included, the active pods do not exceed those there are, those being created and those its counter leaves room for |
| BroadcastJobOvershoot.ReachAttained | pkg/controller/broadcastjob/broadcastjob_controller.go:389-474 | some continuation gets exactly that far |
| BroadcastJobOvershoot.OvershootsIff | pkg/controller/broadcastjob/broadcastjob_controller.go:303-316 | from every state before the create loop: the reconcile can exceed the parallelism if and only if it is exceeded already, or the counter is below the parallelism and below the number of active pods, and active pods and free nodes together exceed it |
| BroadcastJobOvershoot.OvershootsIffCounterLow | pkg/controller/broadcastjob/broadcastjob_controller.go:303-316 | if the list of active pods is right and within the parallelism: it can if and only if the counter is below the length of the list and there are nodes enough |
| BroadcastJobOvershoot.DeletingFinishedPodExceedsParallelism | pkg/controller/broadcastjob/broadcastjob_controller.go:646-678 | from every settled state, deleting a pod that is not active leads to too many active pods if there are nodes enough |
| StuckExpectations.EventsAlwaysSound | pkg/controller/broadcastjob/broadcastjob_event_handler.go:38-58 | along every run each event is about one pod, and a pod is created before it goes |
| StuckExpectations.BlockedForGood | pkg/controller/broadcastjob/broadcastjob_controller.go:167-174 | an idle job with an expectation that can no longer be observed stays idle along every run |
| StuckExpectations.CanActAgainIff | pkg/controller/broadcastjob/broadcastjob_controller.go:167-174 | an idle job can act again if and only if every creation expected has still to be notified and for every deletion expected a pod has still to go or to be notified as gone |
| StuckExpectations.TerminatingArrivalBlocks | pkg/controller/broadcastjob/broadcastjob_event_handler.go:38-43 | a pod that shows up terminating blocks its job for good, unless another creation on its node is due |
| StuckExpectations.SettledJobCanBlock | pkg/controller/broadcastjob/broadcastjob_event_handler.go:38-43 | from any settled state with a free node and room, a run in which the new pod stops before the handler hears of it ends in a job that never acts again |
| StuckExpectations.AttendedNeverBlocks | pkg/controller/broadcastjob/broadcastjob_controller.go:167-174 | with failing calls and lost replies: along every run whose notifications are those of the next event, with no pod showing up terminating, an idle job can act again |
| StuckExpectations.ExpectationChanges | pkg/controller/broadcastjob/broadcastjob_event_handler.go:38-58 | each step changes what is expected exactly so: a call adds, a failing call and a notification take away, a terminating arrival takes away a deletion |
| StuckExpectations.CallsAreAwaited | pkg/controller/broadcastjob/broadcastjob_controller.go:167-174 | between a deletion or a creation asked for and the next reconcile lies a notification about its node or a failing call about it |
| BroadcastJobPhase.BroadcastJob.IsJobFinished | pkg/controller/broadcastjob/broadcastjob_utils.go:31-42 | finished exactly if the policy is Always and a finishing condition is true |
| BroadcastJobPhase.BroadcastJob.FinishJob | pkg/controller/broadcastjob/broadcastjob_controller.go:361-376 | adds one condition and sets the completion time |
| BroadcastJobPhase.BroadcastJob.Reconcile | pkg/controller/broadcastjob/broadcastjob_controller.go:179-268 | the phase machine: its new status and whether it creates or finishes are those of the specification function |
| BroadcastJobPhase.BroadcastJob.Act | pkg/controller/broadcastjob/broadcastjob_controller.go:270-331 | failure policy, deadline, creation and completion, against the specification function |
| BroadcastJobPhase.FinishesIff | pkg/controller/broadcastjob/broadcastjob_controller.go:257-337 | for every spec, status and facts: a round finishes the job if and only if it is neither finished, failed nor paused and a pod has failed under FailFast, the deadline has passed, or every desired node has a pod that is done; it adds exactly one condition, of the right kind, with phase and completion time to match |
| BroadcastJobPhase.PhaseAfter | pkg/controller/broadcastjob/broadcastjob_controller.go:179-290 | a round that does not finish leaves the job paused exactly if something pauses it, running otherwise, failed or completed as it was |
| BroadcastJobPhase.CountsAfter | pkg/controller/broadcastjob/broadcastjob_controller.go:193-256 | a finished job is left alone; otherwise the start time is set once and the counters are those found or those left behind |
| BroadcastJobPhase.CreatesIff | pkg/controller/broadcastjob/broadcastjob_controller.go:303-316 | a round goes to create pods exactly if it acts, does not fail the job, the job is not being deleted and there are nodes |
| BroadcastJobPhase.ChosenIsConsistent | pkg/controller/broadcastjob/broadcastjob_controller.go:516-549 | what choosing nodes returns is what the phase theorems assume of a round |
| BroadcastJobPhase.OpenRound | pkg/controller/broadcastjob/broadcastjob_controller.go:257-337 | a round on an open job keeps it open or closes it, and the closing round creates nothing |
| BroadcastJobPhase.ClosedRound | pkg/controller/broadcastjob/broadcastjob_controller.go:179-191 | a round on a closed job changes neither conditions nor completion time and creates nothing |
| BroadcastJobPhase.FinishesAtMostOnce | pkg/controller/broadcastjob/broadcastjob_controller.go:257-337 | over every series of rounds, stored or not, under both policies: at most one finishing condition, and a completion time exactly with it |
| BroadcastJobPhase.CompletionTimeIsFinal | pkg/controller/broadcastjob/broadcastjob_controller.go:361-376 | once stored, the completion time is never rewritten |
| BroadcastJobPhase.NothingCreatedAtOrAfterTheEnd | pkg/controller/broadcastjob/broadcastjob_controller.go:291-326 | the finishing round creates no pod, and no round after it was stored does |
| BroadcastJobPhase.EveryConditionHasItsRound | pkg/controller/broadcastjob/broadcastjob_controller.go:291-326 | over every series of rounds: each stored condition was added by a stored round, one in which it was time to fail if it says failed, one that found all pods done if it says complete |
| BroadcastJobPhase.StartTimeIsFirstStored | pkg/controller/broadcastjob/broadcastjob_controller.go:193-205 | the start time from which the deadline counts is that of the first stored round |
| CrrLease.HeldKeyHasOwner | pkg/controller/containerrecreaterequest/crr_controller.go:154-182 | with crashes between any two API calls: a live pod holding the key implies that the request exists with its finalizer, along every run whose key removals see the key |
| CrrLease.EraseKeyWorksIffObserved | pkg/controller/containerrecreaterequest/crr_controller.go:296-302 | the key is off the pod after its removal if and only if the cached pod showed it |
| CrrLease.KeyCalls | pkg/controller/containerrecreaterequest/crr_controller.go:265-302 | the key goes exactly if the pod read was live with the gate and the cached pod shows it, is added exactly if neither copy shows it, and nothing else of the pod changes |
| CrrLease.UnobservedKeyLeaks | pkg/controller/containerrecreaterequest/crr_controller.go:296-318 | from every release with a cached pod that does not show the key, however old the cached request, the same reconcile can leave the key held by nobody |
| CrrLease.LeaksIffUnobserved | pkg/controller/containerrecreaterequest/crr_controller.go:296-318 | from every state that satisfies the invariant: what follows before another reconcile begins can leave a live pod held by nobody if and only if the controller is about to remove a key that the cached pod does not show |
| CrrLease.KeyCanLeak | pkg/util/podreadiness/pod_readiness_utils.go:70-96 | such a state is reachable from a new request |
| CrrLease.ReleaseCompletes | pkg/controller/containerrecreaterequest/crr_controller.go:154-182 | from every state that satisfies the invariant, with the controller idle and the request completed or deleted, caches catching up and one undisturbed reconcile leave neither key nor finalizer |
| CrrLease.SetsOut | pkg/controller/containerrecreaterequest/crr_controller.go:154-223 | an open request is completed exactly if its pod is gone or going or it has expired, a closing one is released exactly if it has the finalizer, and the lease is taken for a usable one that asks for it: finalizer, key, annotation |
| CrrLease.UselessRequestCompletes | pkg/controller/containerrecreaterequest/crr_controller.go:183-211 | with a fresh cache, an open request whose pod is gone or going, or which has expired, gets completed |
| CrrLease.LeaseCompletes | pkg/controller/containerrecreaterequest/crr_controller.go:256-291 | on fresh caches one undisturbed reconcile leaves finalizer, key and annotation |
| CrrLease.DeletionWaitsForFinalizers | pkg/controller/containerrecreaterequest/crr_controller.go:154-164 | a deleted request stays as long as anybody's finalizer is on it |
| PodReadiness.AddMessage | pkg/util/podreadiness/pod_readiness_utils.go:98-110 | reports a change exactly if the key was not there, and appends it then |
| PodReadiness.RemoveMessage | pkg/util/podreadiness/pod_readiness_utils.go:112-127 | reports a removal exactly if the key was there, and keeps all others in order |
| PodReadiness.KeysAreIndependent | pkg/util/podreadiness/pod_readiness_utils.go:30-96 | adding or removing a key leaves every other holder's key as it was |
| PodReadiness.RemoveUndoesAdd | pkg/util/podreadiness/pod_readiness_utils.go:30-96 | removing a key just added restores the keys, and the condition turns true exactly if nobody else holds one |
| PodReadiness.StatusFollowsKeys | pkg/util/podreadiness/pod_readiness_utils.go:30-96 | the first key makes the condition without a status, a further one makes it false, one already there changes nothing, and removing the last one, and only that, makes it true |
| LaunchBarrier.FindNextPriorities | pkg/controller/containerlaunchpriority/container_launch_priority_controller.go:219-241 | a sorted permutation of the priorities of the containers that are not ready |
| LaunchBarrier.DecisionSound | pkg/controller/containerlaunchpriority/container_launch_priority_controller.go:185-205 | on snapshots of any age: what is added has only containers above it that have been ready, and completion is declared only with every key present |
| LaunchBarrier.BarrierOpensInOrder | pkg/controller/containerlaunchpriority/container_launch_priority_controller.go:185-205 | along every run the keys are upward closed, a key is present only after every container of higher priority was ready, and a completed pod has no container held back |
| LaunchBarrier.HandleMakesProgress | pkg/controller/containerlaunchpriority/container_launch_priority_controller.go:96-118 | while a key is missing and everything released is ready, a reconcile is started and removes exactly one missing key; the last one completes the pod |
| LaunchBarrier.EnqueuedIffKeyMissing | pkg/controller/containerlaunchpriority/container_launch_priority_controller.go:96-118 | once everything released is ready, reconciles are started if and only if a key is missing |
| LaunchBarrier.EverythingIsReleased | pkg/controller/containerlaunchpriority/container_launch_priority_controller.go:185-205 | from every reachable state with a key missing, a run of readiness and handling releases every container and completes the pod |
| LaunchBarrier.DoneIffNothingWaits | pkg/controller/containerlaunchpriority/container_launch_priority_controller.go:185-205 | on an upward closed snapshot: done exactly if every waiting priority is in the barrier or added now, and what is added is the highest one, if missing |
| LaunchBarrier.NotEnqueued | pkg/controller/containerlaunchpriority/container_launch_priority_controller.go:96-118 | nothing starts a reconcile once the pod is done or ready, or nothing waits |
| DaemonPlan.LessIsStrictTotalOrder | pkg/controller/daemonset/daemonset_controller.go:986-1005 | the order is irreflexive, transitive and total on pods of different names |
| DaemonPlan.LeastUnique | pkg/controller/daemonset/daemonset_controller.go:986-1005 | a set of pods has one least pod |
| DaemonPlan.NameLessIff | pkg/controller/daemonset/daemonset_controller.go:986-1005 | names are compared at the first difference, a proper prefix first |
| DaemonPlan.KeptAreOldest | pkg/controller/daemonset/daemonset_controller.go:890-943 | a pod kept is scheduled if any of its kind is, is created no later than those scheduled alike, and has the first name among those created then |
| DaemonPlan.SurgeKeepsOutdatedIff | pkg/controller/daemonset/daemonset_controller.go:913-943 | with surge a current pod is kept if one runs, and the oldest outdated one next to it exactly while it is ready and the current one is not available |
| DaemonPlan.SplitPods | pkg/controller/daemonset/daemonset_controller.go:855-888 | separates running pods from those to be deleted in any case, respecting termination and backoff |
| DaemonPlan.PruneToOldest | pkg/controller/daemonset/daemonset_controller.go:890-902 | without surge exactly the least running pod is kept |
| DaemonPlan.PruneSurge | pkg/controller/daemonset/daemonset_controller.go:913-943 | with surge the oldest current pod is kept, and the oldest outdated one while they may coexist |
| DaemonPlan.DeleteAllOnNode | pkg/controller/daemonset/daemonset_controller.go:945-953 | lists every pod that is not terminating, once |
| DaemonPlan.PodsShouldBeOnNode | pkg/controller/daemonset/daemonset_controller.go:838-957 | no pod is listed twice; every failed pod outside the backoff and every pod in preparation of deletion is listed; on a node to keep running only those and running pods are, and the right running pods stay; on others every pod that is not terminating is listed; a pod is asked for exactly when one is missing |
| DaemonPlan.KeptPods | pkg/controller/daemonset/daemonset_controller.go:838-957 | at most two pods are kept, never none if there was one, and two only if the oldest current one is not available and the oldest outdated one is ready |
| DaemonPlan.ReplanningKeepsAll | pkg/controller/daemonset/daemonset_controller.go:838-957 | planning again with nothing changed keeps exactly the same pods |
| DaemonSync.Expectations.LowerExpectations | pkg/controller/daemonset/daemonset_controller.go:773-777 | lowers both counters by the given amounts |
| DaemonSync.CreateBatch | pkg/controller/daemonset/daemonset_controller.go:735-772 | observes exactly the ordinary failures of the batch |
| DaemonSync.CreateBatches | pkg/controller/daemonset/daemonset_controller.go:733-782 | attempts the slow-start prefix and leaves exactly the attempts without ordinary failure expected |
| DaemonSync.DeleteAll | pkg/controller/daemonset/daemonset_controller.go:784-800 | leaves exactly the successful deletions expected |
| DaemonSync.SyncNodes | pkg/controller/daemonset/daemonset_controller.go:688-809 | at most the burst of either; outstanding creations are the successes plus the namespace-terminating ones, outstanding deletions the successes |
| DaemonSync.CreatesAreCounted | pkg/controller/daemonset/daemonset_controller.go:733-782 | each outcome of a creation is counted once |
| DaemonSync.DeletesAreCounted | pkg/controller/daemonset/daemonset_controller.go:784-800 | each outcome of a deletion is counted once |
| DaemonSync.FailuresAreDamped | pkg/controller/daemonset/daemonset_controller.go:733-782 | ordinary failures never exceed one more than the creations before them, all of which were in batches without a failure |
| DaemonDeletionEvents.PodEventHandler.Create | pkg/controller/daemonset/daemonset_event_handler.go:56-63 | a pod that arrives terminating is treated as deleted |
| DaemonDeletionEvents.PodEventHandler.Update | pkg/controller/daemonset/daemonset_event_handler.go:99-124 | a terminating update is counted unless it is a resync |
| DaemonDeletionEvents.PodEventHandler.Delete | pkg/controller/daemonset/daemonset_event_handler.go:153-160 | the final delete is counted unless it was counted before |
| DaemonDeletionEvents.PodEventHandler.DeletePod | pkg/controller/daemonset/daemonset_event_handler.go:162-183 | the cache of UIDs decides whether to count, and forgets the UID on the final delete |
| DaemonDeletionEvents.EventCounts | pkg/controller/daemonset/daemonset_event_handler.go:56-183 | an event counts its pod exactly as the change of its phase says, whatever was counted before |
| DaemonDeletionEvents.IgnoredEvents | pkg/controller/daemonset/daemonset_event_handler.go:56-183 | events of pods without an owner, and pods that show up or change without a deletion timestamp, change nothing |
| DaemonDeletionEvents.CountedByPhase | pkg/controller/daemonset/daemonset_event_handler.go:99-183 | in every interleaved trace the number of countings and the cache entry of a pod depend on its own events only |
| DaemonDeletionEvents.CountedExactlyOnce | pkg/controller/daemonset/daemonset_event_handler.go:162-183 | a pod first seen alive is counted exactly once across any number of terminating updates and its delete, and leaves no cache entry |
| DaemonDeletionEvents.CountedOnceIffFirstSeenAlive | pkg/controller/daemonset/daemonset_event_handler.go:56-63 | a deleted pod was counted once if and only if it was first seen without a deletion timestamp, and twice otherwise |
| DaemonExpectations.OutstandingExactly | pkg/controller/daemonset/daemonset_controller.go:700-800 | at every moment of every interleaving of a sync with events, lost replies included: creations outstanding are those to be made, those refused by a namespace being torn down and those not reported alive, less the pods reported whose calls returned an error; deletions outstanding are those to be made and those made less those counted |
| DaemonExpectations.FulfilledIff | vendor/k8s.io/kubernetes/pkg/controller/controller_utils.go:280-283 | when the sync is over, fulfilled if and only if creations torn down and pods not reported are at most the pods reported whose calls returned an error, and as many deletions were counted as made; if there are no such pods, if and only if nothing was torn down, every pod created was reported alive, and the same of deletions |
| DaemonExpectations.CounterChanges | pkg/controller/daemonset/daemonset_controller.go:757-800 | each step lowers the counters by exactly what it observes; a creation refused by a namespace being torn down lowers nothing |
| DaemonExpectations.TornStaysOutstanding | pkg/controller/daemonset/daemonset_controller.go:757-763 | after such a refusal the expectations are never fulfilled, unless a pod whose call returned an error makes up for it |
| DaemonExpectations.ZeroIffReported | pkg/controller/daemonset/daemonset_controller.go:700-800 | if only the sync deletes pods and none is first seen terminating: the counter of deletions is zero exactly when every pod deleted was counted; the counter of creations is zero exactly when pods reported whose calls returned an error make up for those torn down and not reported, so without such pods exactly when every pod created was reported |
| DaemonExpectations.MaskedIff | pkg/controller/daemonset/daemonset_event_handler.go:162-183 | when the sync is over, the expectations are fulfilled with deletions of the sync uncounted if and only if the creations are fulfilled, and the countings of other pods and second countings are at least as many as the deletions missing |
| DaemonExpectations.MissingMaskedIff | pkg/controller/daemonset/daemonset_controller.go:757-767 | when the sync is over, the expectations are fulfilled with pods created and not reported if and only if the deletions are fulfilled, and the pods reported whose calls returned an error are at least as many as those missing and those torn down |
| DaemonExpectations.LostReplyFulfils | pkg/controller/daemonset/daemonset_event_handler.go:57-72 | from every begun sync with three creations or more, one pod stored by a call that returns an error leads to creations fulfilled with a pod created and not reported |
| DaemonExpectations.ForeignDeletionMasks | pkg/controller/daemonset/daemonset_event_handler.go:162-183 | at every moment, the deletion of another pod by somebody else lowers the counter of deletions by one and leaves the deletions of the sync that are missing as they were |
| DaemonExpectations.ForeignDeletionFulfils | pkg/controller/daemonset/daemonset_event_handler.go:162-183 | from every begun sync with one deletion, the deletion of another pod by somebody else leads to expectations fulfilled with that of the sync missing |
| CronSchedule.NextIsLeast | pkg/controller/advancedcronjob/advancedcronjob_job_controller.go:235-262 | the next run returned is the least activation after the given time |
| CronSchedule.Scan | pkg/controller/advancedcronjob/advancedcronjob_job_controller.go:239-262 | the search from an earliest time not after now gives the answer below |
| CronSchedule.GetNextSchedule | pkg/controller/advancedcronjob/advancedcronjob_job_controller.go:212-263 | an error exactly if more than 100 activations lie in (earliest, now]; otherwise the greatest of them, or none if there is none, and the first one after now; said directly: no activation after the last run, or else after the creation, that the deadline admits is later than the run returned, and that run is one of them |
| CronSchedule.AnswerCoversMissed | pkg/controller/advancedcronjob/advancedcronjob_job_controller.go:219-263 | for every answer, the same, and an error exactly if more than 100 activations lie after the last run, or else the creation, and inside the deadline |
| CronSchedule.NeverTooLate | pkg/controller/advancedcronjob/advancedcronjob_job_controller.go:287-300 | no missed run it returns is rejected by the starting deadline, for any deadline |
| CronHistory.MostRecentIsGreatest | pkg/controller/advancedcronjob/advancedcronjob_job_controller.go:107-113 | the time kept by the loop is the greatest of the listed ones |
| CronHistory.ClassifyChildren | pkg/controller/advancedcronjob/advancedcronjob_job_controller.go:89-120 | the three lists are exactly the jobs of the three phases, and the last schedule time is the greatest among all of them |
| CronHistory.CleanUp | pkg/controller/advancedcronjob/advancedcronjob_job_controller.go:148-184 | sorts the finished jobs by start, those without a start first, and deletes all but the last ones the limit allows; nothing without a limit; what goes started no later than what stays |
| CronHistory.TrimmedSize | pkg/controller/advancedcronjob/advancedcronjob_job_controller.go:148-184 | of the finished jobs exactly as many are kept as the limit allows, and all without a limit |
| CronHistory.CleanUpSparesLatest | pkg/controller/advancedcronjob/advancedcronjob_job_controller.go:148-184 | if the limit is not zero, a job is deleted only if a later run exists |
| CronHistory.PlanReconcile | pkg/controller/advancedcronjob/advancedcronjob_job_controller.go:89-375 | the whole reconcile, undisturbed, is a step of the model; unless paused, the run due is the last activation that the children do not account for and the deadline admits, or none if there are more than 100; it is started unless the policy forbids that next to an active job; active jobs go exactly if they are replaced, finished ones exactly if they are beyond the limits |
| CronHistory.PoliciesKept | pkg/controller/advancedcronjob/advancedcronjob_job_controller.go:302-325 | a reconcile from a list of any age that starts a run saw nothing active if the policy is Forbid, and leaves none of the active jobs it saw if it is Replace |
| CronHistory.DueNotBeforeLast | pkg/controller/advancedcronjob/advancedcronjob_job_controller.go:212-263 | what is due is never before the last run started, and is later if the list shows that run |
| CronHistory.RunsAreScheduled | pkg/controller/advancedcronjob/advancedcronjob_job_controller.go:335-375 | along every life with limits that are not zero: every run is an activation after creation, started not before its time |
| CronHistory.KeptHistoryNeverRepeats | pkg/controller/advancedcronjob/advancedcronjob_job_controller.go:89-375 | along every such life, from lists of any age, with failing deletes and creates, under every concurrency policy: scheduled times of the runs started strictly increase |
| CronHistory.ZeroLimitRepeats | pkg/controller/advancedcronjob/advancedcronjob_job_controller.go:148-184 | for every schedule and start, a limit of zero allows a life that starts the first run twice |
| CronHistory.NeverRepeatsIffHistoryKept | pkg/controller/advancedcronjob/advancedcronjob_job_controller.go:89-375 | strict increase in every life if and only if neither limit is zero |
| CronHistory.DeadlineTooShort | pkg/controller/advancedcronjob/advancedcronjob_job_controller.go:227-237 | a starting deadline below one never lets a run start |
| RevisionHistory.LastEqual | vendor/k8s.io/kubernetes/pkg/controller/history/controller_history.go:113-148 | a listed revision equal to the needle with no equal one listed after it, or none if no listed one is equal |
| RevisionHistory.FindEqualRevisions | vendor/k8s.io/kubernetes/pkg/controller/history/controller_history.go:113-148 | exactly the listed revisions with the same data and no labels that read as different numbers; the last one found is the newest |
| RevisionHistory.History.CreateControllerRevision | pkg/util/history/controller_history.go:61-93 | stores under the first probed name that is free, or finds the same data under it, and returns the collision count reached |
| RevisionHistory.History.UpdateControllerRevision | pkg/util/history/controller_history.go:95-114 | changes the number of one revision and nothing else |
| RevisionHistory.History.GetActiveRevisions | pkg/controller/cloneset/cloneset_controller.go:411-466 | reuse, rollback or creation as the specification function says; the current revision is the recorded one if it is listed, else the update revision |
| RevisionHistory.ActivateCases | pkg/controller/cloneset/cloneset_controller.go:411-450 | a template not found gets the next number under the name that ends the search, unless that name holds it; one found keeps the collision count and changes at most the number of its own revision, to the next one |
| RevisionHistory.CollectNonLive | pkg/controller/cloneset/cloneset_controller.go:536-552 | exactly the listed revisions that are neither current nor update nor carried by a pod, in order |
| RevisionHistory.NonLive | pkg/controller/cloneset/cloneset_controller.go:536-552 | membership in that list |
| RevisionHistory.History.TruncateHistory | pkg/controller/cloneset/cloneset_controller.go:529-569 | deletes a prefix of them, down to the limit or up to the first refusal, and nothing else |
| RevisionRuns.UpdateSoundIffRecognised | pkg/controller/cloneset/cloneset_controller.go:411-466 | for every hash: after a look-up the update revision has the template as content and the strictly largest number, contents and numbers are pairwise different and no revision is lost, if and only if the label of the stored copy does not clash with the present one, or the copy is the newest and the search for a name ends at it |
| RevisionRuns.RunSoundIffRecognised | pkg/controller/cloneset/cloneset_controller.go:411-569 | for every hash and every run of edits, rollbacks, pod changes and reconciles: every look-up ends that way if and only if every reconcile recognises its template |
| RevisionRuns.UpdateRevisionAlwaysNewest | pkg/controller/cloneset/cloneset_controller.go:411-466 | after every recognised run, a reconcile that recognises its template ends, truncation included, with an update revision that holds it and is newer than all |
| RevisionRuns.HistoryAlwaysSound | pkg/controller/cloneset/cloneset_controller.go:411-569 | after every recognised run contents and numbers are pairwise different, and every revision a pod carries is stored |
| RevisionRuns.RecordedSurvives | pkg/controller/cloneset/cloneset_controller.go:452-463 | every reconcile, with any limit, leaves the recorded revision stored, and recorded unless the update revision is promoted |
| RevisionRuns.RecordedUntilPromoted | pkg/controller/cloneset/cloneset_controller.go:452-569 | along every run the recorded revision is stored, and stays recorded until another one is promoted |
| RevisionRuns.RecordedAlwaysStored | pkg/controller/cloneset/cloneset_controller.go:452-569 | from the start of every run: what the status records is stored |
| RevisionRuns.CollisionFreeIsRecognised | pkg/util/history/controller_history.go:61-93 | for every hash, a run in which no name is found taken by another template is recognised |
| RevisionRuns.DifferentNamesStaySound | vendor/k8s.io/kubernetes/pkg/controller/history/controller_history.go:92-104 | for every hash: if the templates of a run have different names at the first probe, every update revision of the run is sound and so is the history at its end |
| RevisionRuns.RollbackReusesRevision | pkg/controller/cloneset/cloneset_controller.go:437-443 | for every hash: going back to a stored template brings back its revision under its name, stores nothing new and leaves the others alone, if and only if the labels do not clash or the search for a name ends at that revision |
| RevisionRuns.TruncationKeepsLive | pkg/controller/cloneset/cloneset_controller.go:529-569 | however far it gets, truncation keeps the current, the update and every pod-carried revision unchanged |
| RevisionRuns.TruncationTakesOldest | pkg/controller/cloneset/cloneset_controller.go:561-567 | however far it gets, what it deleted is older than every non-live revision left |
| RevisionRuns.TruncationLeavesLimit | pkg/controller/cloneset/cloneset_controller.go:553-567 | if it is not cut short, it leaves exactly the smaller of the limit and the number of non-live revisions |
| RevisionRuns.StoredTwiceIff | pkg/util/history/controller_history.go:61-93 | for every hash, a look-up stores a content a second time if and only if the label of the stored copy clashes with the present one and the name the search ends at is free |
| RevisionRuns.CollidingTemplatesStoreTwice | vendor/k8s.io/kubernetes/pkg/controller/history/controller_history.go:92-136 | for every hash and every two templates whose names collide at the first two probes with clashing labels: a run from the empty history that stores a content twice |
| LabelSelectors.SliceOverlaps | pkg/util/selector.go:97-108 | true exactly if the two lists share a value |
| LabelSelectors.SliceContains | pkg/util/selector.go:111-122 | true exactly if the first list contains every value of the second |
| LabelSelectors.ConvertSelectorToMatchExpressions | pkg/util/selector.go:263-277 | one requirement per key, against the specification function |
| LabelSelectors.WinningReqs | pkg/util/selector.go:263-277 | match labels win over expressions, the last expression on a key over the others, and no other key has a requirement |
| LabelSelectors.SatisfiesByKey | pkg/util/selector.go:263-277 | a label map satisfies a selector exactly if it meets the requirement of each key |
| LabelSelectors.MetTogetherByKey | pkg/util/selector.go:203-230 | requirements are met by a common label map exactly if they are compatible key by key; the label map is constructed |
| LabelSelectors.TogetherByKey | pkg/util/selector.go:263-277 | with one requirement per key, two selectors are satisfied by a common label map exactly if their requirements are met by one |
| LabelSelectors.IsMatchExpOverlap | pkg/util/selector.go:232-261 | decides by operators; true exactly if some value, or the absence of the label, meets both requirements, where In offers a value |
| LabelSelectors.EmptyInMeets | pkg/util/selector.go:232-261 | an In without values overlaps an Exists and nothing else |
| LabelSelectors.IsSelectorLooseOverlap | pkg/util/selector.go:203-230 | any selectors: judged on the last requirement of each key, match labels winning; true exactly if the key sets are the same and some label map meets those; with one requirement per key, exactly if it satisfies both selectors |
| LabelSelectors.CollectMatched | pkg/util/selector.go:48-61 | any selector: values of In appended, Exists replacing; with one requirement per key, the demanded keys with their allowed values |
| LabelSelectors.ExistsDemandsAny | pkg/util/selector.go:48-61 | whatever else is said on its key, an Exists makes it demanded with any value |
| LabelSelectors.AllowedValues | pkg/util/selector.go:48-61 | without Exists, the values allowed on a key are that of its match label and those of all its In expressions |
| LabelSelectors.IsDisjoint | pkg/util/selector.go:43-95 | true exactly if some requirement of the second selector clashes with what the first one demands |
| LabelSelectors.IsSelectorOverlapping | pkg/util/selector.go:39-41 | any selectors: neither clashes with what the other demands; with one requirement per key, true exactly if some label map satisfies both and each key one wants to exist is demanded by the other, whatever the values; without Exists, always true if some label map satisfies both |
| LabelSelectors.SatisfiableOverlaps | pkg/util/selector.go:43-95 | any selectors without Exists that a common label map satisfies overlap |
| LabelSelectors.OverlapIsSatisfiability | pkg/util/selector.go:39-95 | without Exists and with one requirement per key, overlap is satisfiability by a common label map |
| LabelSelectors.ExistsMisjudged | pkg/util/selector.go:83-86 | for any two keys, an Exists on one and a label on the other are called disjoint although a label map satisfies both |
| LabelSelectors.RepeatedKeyMisjudged | pkg/util/selector.go:43-95 | for any key and value, a selector that wants the value and not the value is called overlapping although no label map satisfies it |
| SelectorSatisfiability.SatisfiableByKey | pkg/util/selector.go:43-95 | any selectors: a label map satisfies both exactly if each key admits a value, or absence, under all requirements of both on that key; the label map is constructed |
| SelectorSatisfiability.SatisfiableIff | pkg/util/selector.go:43-95 | any selectors: it is enough to try absence, the values named and one value not named |
| SelectorSatisfiability.SingleKeysAgree | pkg/util/selector.go:43-95 | any selectors without Exists that overlap leave a value at every key on which each has at most one requirement, and no In without values |
| SelectorSatisfiability.OverlapWrongIff | pkg/util/selector.go:39-95 | any selectors without Exists: the overlap test agrees with satisfiability if and only if some requirement clashes with what the other selector demands, or every key admits one of those values; it is enough to look at keys on which a single selector has two requirements or an In without values |
| PartitionReplicas.PartitionErrors | pkg/util/tools.go:200-228 | an error exactly for a string that is not a number with a percent sign |
| PartitionReplicas.PartitionInRange | pkg/util/tools.go:162-185 | the value lies between 0 and the replicas |
| PartitionReplicas.PlainPartition | pkg/util/tools.go:162-185 | no partition keeps nothing back, a number that many pods within what there is, and missing replicas count as one |
| PartitionReplicas.PercentagePartition | pkg/util/tools.go:162-228 | a percentage keeps back the least number of pods that is no smaller share, or all but one where that would be all of several and is not written "100%" |
| PartitionReplicas.PartialPartition | pkg/util/tools.go:162-185 | strictly between 0% and 100% with two or more replicas, at least one pod is kept back and at least one let go |
| PartitionReplicas.PartitionMonotoneInPercentage | pkg/util/tools.go:162-185 | a larger percentage never keeps back fewer pods, except exactly "100%" against another spelling of one hundred |
| PartitionReplicas.PartitionMonotoneInReplicas | pkg/util/tools.go:162-185 | more replicas never mean fewer pods kept back |
| PartitionReplicas.HundredWrittenOtherwise | pkg/util/tools.go:178-181 | "100%" of two keeps two back, "100.0%" keeps one |
| PartitionReplicas.CloneSetStatus.CalculateStatus | pkg/controller/cloneset/cloneset_status.go:87-115 | the six counters, the expected number, and: the update revision becomes current exactly if every pod carries it and none is missing |
| PartitionReplicas.CountsAreExact | pkg/controller/cloneset/cloneset_status.go:87-105 | each counter is the number of pods that are ready, available, of the update revision, or both |
| PartitionReplicas.ExpectedUpdatedInRange | pkg/controller/cloneset/cloneset_status.go:112-114 | the expected number of updated pods lies between 0 and the replicas, and is at least 1 below 100% of two or more |

## Assumptions

- Calls to the API server, clocks, node fitness, hashing and number parsing are parameters; theorems hold for all of
  them unless a premise is named. Calls that the source makes concurrently inside a batch are modelled by the function
  of their outcomes.
- `PubProtocol` starts from a budget nobody has written. It does not use the webhooks' mutex.
- `BroadcastJobProtocol` covers one job and one process: reconciles of the job are serial and the in-memory
  expectations are not lost. `CrrLease` covers one request; its view of the request never moves backwards, and no
  finalizer can be added to an object that is being deleted. A pod of the same name with another UID is treated as a
  pod the request may still act on, which allows more runs than the code.
- `LaunchBarrier` assumes that a container becomes ready only after its key is in the barrier.
- `CronHistory` assumes a fixed schedule with a fixed set of activations, a clock that does not go backwards, children
  deleted only by the controller, and that among finished jobs of one kind the later run started later. A positive
  starting deadline, or none, is needed for any run to start.
- `StuckExpectations` treats expectations as the code does: they do not lapse. The protocol does not tell a pod that was
  asked to terminate from one that finished; a pod can show up terminating once the cache has seen it stop.
- `DaemonExpectations` assumes that pods of the DaemonSet are created by the DaemonSet; adoption of orphans and the
  expiry of expectations are not part of it. A create call that returns an error may have stored its pod, at any time,
  in this sync or an earlier one; a delete call that returns an error and takes effect all the same is a failing one and
  the deletion of a pod that the sync did not delete.
- `RevisionRuns` assumes that a reconcile lists all stored revisions, that the API server holds no revision of the same
  name from another owner, and that some probe of the hash finds a free name. It assumes nothing about the hash.
- `LabelSelectors` models any selectors; with Exists, exactness of the overlap test against label maps is for one
  requirement per key and non-empty value lists for In, as `Plain` says.

## Left out

- Node fitness, cron parsing, image references, JSON and strategic merge patches, hash functions: library code, kept
  as parameters.
- Restart of a controller process while expectations are outstanding.
- `@every` schedules and schedules that never fire, which have no fixed set of activations or no next one.
- Floating-point rounding in the partition; for integer percentages it does not change the result, and infinite or
  not-a-number percentages are not modelled.
- Wrap-around of 32- and 64-bit counters (history limits, revision numbers, collision counts).
- The BroadcastJob variant of the AdvancedCronJob, which is a copy of the Job variant.
- SidecarSet, StatefulSet, UnitedDeployment, WorkloadSpread, in-place update, image pulling and the node daemon.
- The pre-delete lifecycle hook that filters the DaemonSet's deletions before they are carried out.
- Negative revision history limits, for which the slice expression of the source is out of range.
- Tie-breaking of equal revision numbers by creation time and name; numbers never tie in any run of the model.
