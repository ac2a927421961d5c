# FLIPOP controllers: model and proofs

FLIPOP keeps floating IPs on Kubernetes nodes and DNS records pointed at them. This project models its
reconcilers and proves what they promise over every run, every cloud answer and every interleaving.
`dafny verify dfyconfig.toml` checks all of it.

| files | what they hold |
|---|---|
| `RetrySchedules`, `Options` | retry schedules and the errors that choose them |
| `OrderedSets` | the work queue: a ring of cells with an index (`OrderedSet`), and the duplicate-free sequence it stands for |
| `PoolState` | the floating IP controller's state as a value, and what each method does to it |
| `IpControllers` | the controller as an object updated in place, each method proved against `PoolState` |
| `PoolAgreement`, `PoolConservation`, `PoolConvergence`, `PoolCreation`, `PoolConfiguration`, `PoolFlap` | over whole runs: claims and owners, what the provider's answers do to them, created IPs, the configuration |
| `PoolAssignment`, `PoolQueues`, `PoolNameOrder` | the two work queues, and which IP goes to which node |
| `PoolTiming`, `PoolSchedules`, `PoolTimer`, `PoolTimerCause` | cool-off, backoff and deadlines, and when the run loop's timer fires |
| `PoolDns`, `PoolUpdates`, `PoolFreshness`, `PoolCrash` | what is published and when, whether it is still right, and the nil dereference on the way |
| `Wakeups` | the mutex and the one-slot channel between the mutators and the run loop, interleaved |
| `DnsZones`, `DnsRecordSets`, `DnsMinimality` | `EnsureDNSARecordSet` of both providers, how few writes an update can take, and when these take no more |
| `NodeMatches`, `NodeMatchControllers` | which nodes should be enabled, from scratch, and the incremental controller that keeps up with events |
| `LeaderElection` | the shutdown handshake of the lease, interleaved |

## What the environment is assumed to do

Everything outside the modelled functions is a parameter of the statements: provider answers, call
failures, cancellation of contexts at each test, map iteration orders, clock readings, event sequences.
These are the only restrictions on them.

- **Clock.** One clock stands for `i.now()` and `time.Now()`; each reading is any non-negative delay after
  the one before, and the first is after Go's zero time. A call to `AssignIP` takes any time.
- **Atomicity.** Each method under the controller's lock is one step. `updateProviders` takes no lock in
  the source and is one step too.
- **Spec** (`SpecAllowed`): IPs are distinct, non-empty, and none is a pending one; `desiredIPs` and the
  cool-off are not negative (the custom resource definition says so). **`CreateIP`** (`FreshCreates`)
  returns addresses the controller has not seen. Retry schedules are not empty; for the timer
  (`PatientEnv`, `PatientLog`) their delays are not negative.
- **Provider fidelity** is never assumed silently: conservation is proved for exactly the answers that
  keep it (`Acceptable`), which include those of a faithful provider (`Faithful`).
- **Node match** (`Possible`): object names are not empty, a node that has a provider ID goes on having
  one (`Handle` says what happens when it is another one), a pod keeps its labels and its node, pod events
  come only when the pool asks for pods, and the pod index is up to date when an event is handled. The
  controller is primed. Where provider IDs matter, no two nodes have the same one (`DistinctIDs`).
- **DNS.** Record IDs are unique, a failed call leaves the zone as it was, an edit keeps a record's place
  in the listing and its proxied flag, and nobody else edits the zone meanwhile.
- **Leader election.** The elector may run either callback at any time and any number of times. That is
  more than client-go's elector does, which starts leading at most once per run; only `FirstStartIsForgotten`
  needs a second start.

## Where the code and its description differ

- A known IP that the provider suddenly finds on a node still waiting for an IP leaves that node both
  holding the IP and queued: `LateOwnerBreaks` reaches this from an empty pool with one failed lookup.
  `AnswerConserves` says for which answers, exactly, this cannot happen.
- `reconcileDNS` reads the status of every spec IP and dereferences nil when the poll was cancelled before
  it reached a new one: `CrashesExactlyWhen` gives the condition, `CrashesFromBeforePoll` the same for a
  context that stays cancelled, in terms of what is known before the poll, and `CancelledStartCrashes` a run.
- README.md:125 of the repository says that candidates are assigned sorted by name; the code pairs IPs and
  nodes in queue order (`AssignsAllItCan`), that is in the order in which they were enabled.
  `AssignsFirstByNameExactlyWhen` says when these are the first by name: exactly if those enabled first precede
  all the others. The first batch is sorted (match_controller.go:250) and so meets this (`SortedBatchPrecedes`);
  nodes enabled later, one at a time, need not (`FirstEnabledNotFirstNamed`).
- pkg/floatingip/ip_controller.go:469 marks an evicted IP for immediate retry, but nothing makes the run loop come
  back sooner: `EvictedMustWait` shows it waiting for a whole period. `TimerMissesExactlyWhen` says for which IPs
  the timer is too late.
- The same eviction can leave DNS stale: an active IP whose node turns out to hold another IP is no longer active, but
  no update becomes due if the other IP's own report stays what it was. `EvictedStaysPublished` shows one address that
  stays published; `AnswerKeepsFresh` says exactly which answers do this, and `FreshOverRuns` that none of a faithful
  provider's do.
- `updateDNSSpec` compares the record it is given with its own copy, in which a missing TTL was filled in
  (pkg/floatingip/ip_controller.go:807-823). So a record without a TTL never counts as unchanged, and each time it is
  given again DNS is due again (`SameRecordAgain`).
- The enabled set is kept by node name, and the IP controller goes by provider ID. A node recreated under its old
  name for another machine, with the same match and annotation, is taken for unchanged and not enabled
  (`RecreatedIsMissed`); `Handle` says that this is the only way for the IDs to go wrong.
- pkg/leaderelection/leaderelection.go:116 says that without a child context `ctx` must have been canceled.
  `EarlyReturnProvesNothing` shows a run where it is not, and a child starts after OnStoppedLeading returned.
  `EarlyReturnFinalExactlyWhen` and, with the lock free again, `FinalOnceUnlocked` say exactly when no child
  can start any more; `FinalOnceDone` covers the case the comment has in mind.
- Lines 106-109 there read the captured `childCtx` only when the goroutine runs, so a late child can get a
  nil context (`LateChildGetsNoContext`): exactly while OnStoppedLeading waits for it (`NilExactlyWhen`).
- `childCancel` belongs to the last start only. After two starts in a row OnStoppedLeading waits for
  children of the first that nobody asked to stop (`FirstStartIsForgotten`); `ToldExactlyWhen` says for which
  children it has. One run of client-go's elector never starts leading twice, so this takes an elector that does.
- With wrong TTLs, `EnsureDNSARecordSet` can take more writes than necessary (`WrongFirstCostsOneMore`);
  `LeastExactlyWhen` says when it does not. On Cloudflare a proxied record is edited on every run, without
  effect on the flag (`RunningAgain`, `UpdateTwiceCloudflare`).

## Model

| member | source | states |
|---|---|---|
| `RetrySchedules.DelaysGrowToCap` | pkg/provider/retry.go:64-70 | on a sorted schedule the wait never shrinks as attempts add up, never exceeds the last entry, and stays at it once reached |
| `RetrySchedules.BuiltInSchedules` | pkg/provider/retry.go:42-57 | the providers' own errors are retried on a sorted built-in schedule: fast for in-progress (1 s to 5 min), slow for all others, unknown errors included (1 to 10 min), with the delay for every number of attempts |
| `RetrySchedules.Equal` | pkg/provider/retry.go:24-35 | the entry-by-entry loop says exactly whether two schedules are the same |
| `LinkedLists.SpliceInserts` | pkg/floatingip/ip_controller.go:849-853 | linking a cell into the gap after a position yields a doubly linked ring with just that cell added there |
| `LinkedLists.SpliceRemoves` | pkg/floatingip/ip_controller.go:862-864 | joining a cell's neighbours yields the ring without it, links consistent both ways |
| `LinkedLists.List.MoveToFront` | pkg/floatingip/ip_controller.go:841-848 | the cell is unlinked and relinked at the head, the other cells keeping their order |
| `LinkedLists.List.Remove` | pkg/floatingip/ip_controller.go:874-882 | exactly that cell leaves the ring, which stays well linked |
| `OrderedSets.OrderedSet.Add` | pkg/floatingip/ip_controller.go:839-854 | with front the value ends up at the head, new or not; without, a known value keeps its place and a new one goes last; list and index keep holding the same values, each index entry its own cell |
| `OrderedSets.OrderedSet.Front` | pkg/floatingip/ip_controller.go:856-866 | pops the head of the queue, or "" and no change when empty |
| `OrderedSets.OrderedSet.Delete` | pkg/floatingip/ip_controller.go:873-882 | takes the value out if it is there, says whether it was, and keeps the rest in order |
| `OrderedSets.OrderedSet.Len` | pkg/floatingip/ip_controller.go:868-871 | the number of distinct values queued |
| `OrderedSets.OrderedSet.IsSet` | pkg/floatingip/ip_controller.go:884-891 | the index answers for membership in the list |
| `OrderedSets.OrderedSet.AsList` | pkg/floatingip/ip_controller.go:893-900 | some permutation of the queued values |
| `OrderedQueues.DeleteKeepsOrder` | pkg/floatingip/ip_controller.go:873-882 | deleting the value at a position leaves everything before it and everything after it, in order |
| `OrderedQueues.AddThenDelete` | pkg/floatingip/ip_controller.go:839-882 | adding a new value at the back and deleting it again restores the queue |
| `OrderedQueues.IncludingAllAppends` | pkg/floatingip/ip_controller.go:515-523 | requeueing fresh distinct values appends them in order |
| `IpControllers.IpController.constructor` | pkg/floatingip/ip_controller.go:119-140 | a new controller knows nothing and has nothing queued |
| `IpControllers.IpController.UpdateProviders` | pkg/floatingip/ip_controller.go:162-186 | the fields become those of the step function the Pool modules reason about: reset on another provider or region, next assignment moved with the cool-off |
| `IpControllers.IpController.UpdateIPs` | pkg/floatingip/ip_controller.go:188-245 | likewise for a spec change, for some order of ranging over the status map |
| `IpControllers.IpController.UpdateDNSSpec` | pkg/floatingip/ip_controller.go:804-825 | likewise for a DNS spec, with the default TTL and the nil and incomplete cases |
| `IpControllers.IpController.DisableNodes` | pkg/floatingip/ip_controller.go:647-708 | likewise for a batch of disabled nodes |
| `IpControllers.IpController.EnableNodes` | pkg/floatingip/ip_controller.go:710-764 | likewise for a batch of enabled nodes |
| `IpControllers.IpController.ReconcileDesiredIPs` | pkg/floatingip/ip_controller.go:307-334 | likewise for the creation loop, which stops at the target or the first error |
| `IpControllers.IpController.ReconcilePendingIPs` | pkg/floatingip/ip_controller.go:336-368 | likewise for adopting created IPs |
| `IpControllers.IpController.ReconcileIPStatus` | pkg/floatingip/ip_controller.go:370-511 | likewise for the polling loop, branch by branch |
| `IpControllers.IpController.ReconcileAssignment` | pkg/floatingip/ip_controller.go:513-621 | likewise for the assignment loop with its deferred requeue |
| `IpControllers.IpController.ReconcileDNS` | pkg/floatingip/ip_controller.go:623-645 | likewise for the DNS update, the nil dereference included |
| `IpControllers.IpController.Reconcile` | pkg/floatingip/ip_controller.go:277-299 | the whole pass under the lock |
| `PoolAgreement.RunKeeps` | pkg/floatingip/ip_controller.go:188-764 | in every reachable state, whatever the provider answers: claimed IPs are on record as owned by the claiming node, known IPs are spec IPs, queued IPs have a status, queued nodes are active, queues repeat nothing |
| `PoolAgreement.NoTwoNodesClaimOneIP` | pkg/floatingip/ip_controller.go:188-764 | in every reachable state two nodes never claim the same IP |
| `PoolAgreement.ReconcileToDNSKeeps` | pkg/floatingip/ip_controller.go:277-292 | from an agreeing state, a pass up to the DNS update misses no status lookup and agrees again |
| `PoolAgreement.AssignLoopKeepsAny` | pkg/floatingip/ip_controller.go:524-620 | any property that clock readings and single turns keep holds when the assignment loop ends: its induction principle |
| `PoolConservation.RunConserves` | pkg/floatingip/ip_controller.go:188-764 | over every run with acceptable answers: each active node holds a claim or is queued, never both or neither; each known IP is owned by an active node, or queued, or has no owner and awaits a check; claims and owners are inverse; an IP reported active is on an active node |
| `PoolConservation.AnswerConserves` | pkg/floatingip/ip_controller.go:370-511 | polling one due IP keeps this if and only if the answer is an error, a first look, the recorded owner, nobody, or a foreign owner the queues already agree with |
| `PoolConservation.FaithfulRunsConserve` | pkg/floatingip/ip_controller.go:188-764 | over every run from an empty pool with a provider that names only recorded owners, nobody or errors for IPs it was asked about before, all of this holds |
| `PoolConservation.LateOwnerBreaks` | pkg/floatingip/ip_controller.go:447-462 | a run from an empty pool and one answer after which a node holds an IP and stays queued |
| `PoolConservation.AssignmentConserves` | pkg/floatingip/ip_controller.go:513-621 | an assignment pass conserves, whatever calls fail and whenever it is cancelled |
| `PoolConservation.DisableNodesConserves` | pkg/floatingip/ip_controller.go:647-708 | disabling any batch of nodes conserves |
| `PoolConservation.EnableNodesConserves` | pkg/floatingip/ip_controller.go:710-764 | enabling any batch of nodes conserves |
| `PoolConservation.UpdateIPsConserves` | pkg/floatingip/ip_controller.go:188-245 | a spec change conserves, for every order of ranging over the status map |
| `PoolConvergence.OnePassConverges` | pkg/floatingip/ip_controller.go:370-511 | if claims and owners are inverse, every IP is due and the provider's answers are fixed with at most one IP per node, one pass leaves every owner as the provider has it, every IP active exactly if that is an active node with a name and unassigned exactly if there is none, and the claims exactly the inverse, for every spec order, swaps and cycles of owners included |
| `PoolConvergence.PublishesTheTruth` | pkg/floatingip/ip_controller.go:370-645 | after such a pass the active IPs are exactly those the provider has on an active node with a name, in spec order; with a DNS record wanted, an update due and at least one of them, just this list is published and no update is due any more |
| `PoolConvergence.ConvergedIsStable` | pkg/floatingip/ip_controller.go:370-511 | a later pass with the same answers moves no claim |
| `PoolConvergence.TruthfulCheck` | pkg/floatingip/ip_controller.go:428-509 | one answer sets that IP's owner and evicts at most one other IP, the one that claimed the same node |
| `PoolAssignment.AssignmentAccounts` | pkg/floatingip/ip_controller.go:513-621 | after the requeue the old queues are the disjoint union of the new queues and the assigned IPs and nodes, which are paired one to one in the claims and owners on record |
| `PoolAssignment.AssignsAllItCan` | pkg/floatingip/ip_controller.go:513-621 | with no cool-off, nothing in backoff and every call succeeding, exactly min(IPs, nodes) pairs are assigned, head with head, and the rest stays queued as it was |
| `PoolAssignment.RequeueAppends` | pkg/floatingip/ip_controller.go:514-523 | skipped and refused values go to the back in the order they were met |
| `PoolQueues.FirstReadyIsCalled` | pkg/floatingip/ip_controller.go:524-573 | with the cool-off over, the first queued IP that need not wait is assigned to the first queued node if that need not wait, however many IPs before it do; the call counts as a success if it returns no error or is still in progress, as refused otherwise |
| `PoolQueues.CanceledCallsNoMore` | pkg/floatingip/ip_controller.go:524-527 | once the context is canceled nothing more is assigned: at most one call for each turn before |
| `PoolQueues.AnswerQueues` | pkg/floatingip/ip_controller.go:398-491 | what any answer to a due lookup does to both queues: an IP without an owner goes first, and so does an active node that lost its IP; an IP first found on a node that is not active goes last, then the IP evicted from that node; a node found to have its IP leaves the queue on the first look; an unknown IP without an active owner leaves it too |
| `PoolQueues.LostNodesGoFirst` | pkg/floatingip/ip_controller.go:213-240 | a spec change queues exactly the active nodes whose IPs it removes, ahead of all others, which keep their order |
| `PoolQueues.NewIPsGoFirst` | pkg/floatingip/ip_controller.go:357-367 | created IPs go ahead of all queued ones, the last created first |
| `PoolQueues.ParkedIPsGoLast` | pkg/floatingip/ip_controller.go:672-676 | the IPs of disabled nodes go behind all queued ones |
| `PoolNameOrder.EnabledInOrder` | pkg/floatingip/ip_controller.go:710-764 | nodes that are new and hold nothing join the queue in the order in which they are enabled, and nothing else moves |
| `PoolNameOrder.AssignsFirstByNameExactlyWhen` | pkg/floatingip/ip_controller.go:513-621 | with an empty node queue, new nodes enabled in any batches and nothing in the way, the nodes assigned are the first n by name if and only if the first n enabled precede all the others by name |
| `PoolNameOrder.SortedBatchPrecedes` | pkg/nodematch/match_controller.go:244-251 | a batch sorted by name meets that condition |
| `PoolNameOrder.FirstEnabledNotFirstNamed` | pkg/floatingip/ip_controller.go:535-547 | a run from an empty pool in which two nodes are enabled one after the other, in reverse name order, and the one enabled first gets the only IP |
| `PoolTiming.CoolOffOverRuns` | pkg/floatingip/ip_controller.go:177-184 | over every run the next assignment is due one current cool-off after the last success, also after the cool-off was changed, and each success began strictly later than the cool-off then in force allowed |
| `PoolTiming.SuccessesInWindow` | pkg/floatingip/ip_controller.go:528-533 | over any run, under a constant cool-off n further successes take more than n cool-offs |
| `PoolTiming.BackoffOverRuns` | pkg/floatingip/ip_controller.go:540-557 | after a refused call neither its node nor its IP is passed to AssignIP before the recorded deadline, unless a spec change or a reset cleared it |
| `PoolTiming.NodeBackoffGrows` | pkg/floatingip/ip_controller.go:591-604 | over any run, a node refused again on a sorted schedule waits at least as long as before and at most the last entry |
| `PoolTiming.RunTimed` | pkg/floatingip/ip_controller.go:528-610 | the invariant behind these over every run: recorded deadlines and the next assignment are what the call history implies |
| `PoolSchedules.OnScheduleOverRuns` | pkg/floatingip/ip_controller.go:370-617 | over every run every deadline set for an IP or for creations is the delay that the schedule in force gives for the failures in a row before it, counted from the clock reading taken (a failed lookup, a refused call, a failed creation), or the fixed delay (five minutes after a healthy lookup, a second after an assignment or a regained node, a minute after a lost one); and no IP is looked up before its deadline |
| `PoolSchedules.StatusOverRuns` | pkg/floatingip/ip_controller.go:370-758 | over every run an IP's attempts and deadline are those, and its state, message and owner tell the last thing that happened to it; active, for one, only on the provider's last word, naming its node |
| `PoolSchedules.CreationOverRuns` | pkg/floatingip/ip_controller.go:311-331 | over every run the creation attempts are the failures since the last success, and the creation deadline is the one the last failure set |
| `PoolSchedules.RefusedIPWaits` | pkg/floatingip/ip_controller.go:582-615 | over every run, a refused IP on a sorted schedule gets the delay for its failed lookups since the last healthy one, so at least the schedule's first delay, and AssignIP is not called for it before, unless it was forgotten: at least a minute for every built-in error |
| `PoolTimer.TimerHeedsPass` | pkg/floatingip/ip_controller.go:265-313 | after any run, a pass leaves the timer set to fire within a period of its start, no later than any node backoff it recorded, the creation retry it recorded or found running, and the next assignment if the cool-off left an IP and a node queued |
| `PoolTimer.TimerHeedsQueues` | pkg/floatingip/ip_controller.go:514-615 | after any run, the IPs and nodes that a pass skipped or was refused are back at the end of the queues, and the timer is no later than the deadline of any of them that has to wait |
| `PoolTimer.TimerMissesExactlyWhen` | pkg/floatingip/ip_controller.go:469-475 | after any run, the timer is later than the retry of an IP that the pass polled if and only if an IP polled after it took its node and no assignment was attempted for it since |
| `PoolTimerCause.TimerHasCause` | pkg/floatingip/ip_controller.go:284-305 | after any run, a pass leaves the timer at the end of its minute, at a deadline that some call on the log set, or, while the cool-off lasts, at the next assignment: it never fires without a cause |
| `PoolTimer.EvictedMustWait` | pkg/floatingip/ip_controller.go:465-475 | a run from an empty pool after which an IP marked for immediate retry waits for a whole period |
| `PoolCreation.CreatedOverRuns` | pkg/floatingip/ip_controller.go:307-368 | over any run the addresses CreateIP returned are, in order, those accepted by the spec update followed by those pending |
| `PoolCreation.NoExcessBetweenSpecChanges` | pkg/floatingip/ip_controller.go:316-333 | between spec changes every created address is still held and their number never exceeds the larger of the target and the number at the start |
| `PoolCreation.CreatesAllMissing` | pkg/floatingip/ip_controller.go:307-334 | unless it is cancelled or a creation is in backoff, a pass ends with the larger of the target and what was held, or right after the first failed call; what the calls before it returned is pending, in order; otherwise it creates nothing |
| `PoolCreation.PersistConserves` | pkg/floatingip/ip_controller.go:336-368 | when persisting goes through, all pending addresses move to the end of the spec, in order; when it fails or is cancelled nothing changes |
| `PoolDns.PublishesLiveAddresses` | pkg/floatingip/ip_controller.go:623-645 | on a conserved state what goes to DNS is a non-empty duplicate-free list, in spec order, of exactly the active IPs, each claimed by its owner, an active node |
| `PoolDns.PublishesLiveOverRuns` | pkg/floatingip/ip_controller.go:623-645 | after any run with a faithful provider, whatever the next pass publishes is a non-empty duplicate-free sublist of the spec whose addresses are each claimed by an active node at that moment |
| `PoolDns.NothingActiveNothingPublished` | pkg/floatingip/ip_controller.go:634-638 | with no active IP nothing goes out and the update stays due |
| `PoolDns.PublishesExactlyWhen` | pkg/floatingip/ip_controller.go:623-645 | where no status is missing, an update is made and cleared if and only if a record is wanted, an update is due, some spec IP is active and the provider goes along, for the record wanted with just the active IPs; otherwise nothing changes |
| `PoolUpdates.UpdateDueOverRuns` | pkg/floatingip/ip_controller.go:188-764 | over every run, whatever the provider answers: with a record wanted, an update is due, or one went out and since then no IP was created, persisted, assigned, refused, forgotten, or lost or regained its node, and no creation failed |
| `PoolFreshness.OwnReport` | pkg/floatingip/ip_controller.go:415-509 | a lookup makes an update due if and only if it changes the state or the message of its IP, or is the first |
| `PoolFreshness.AnswerKeepsFresh` | pkg/floatingip/ip_controller.go:463-508 | polling one IP keeps the published list equal to the active one if and only if it does not evict an active IP while nothing is due and its own report stays what it is |
| `PoolFreshness.StaysFresh` | pkg/floatingip/ip_controller.go:188-764 | over every run without such an answer, whenever a record is wanted and no update is due, the last one went out for that record with exactly the IPs active now, or everything was forgotten with a provider |
| `PoolFreshness.FreshOverRuns` | pkg/floatingip/ip_controller.go:188-764 | the same over every run from an empty pool with a faithful provider |
| `PoolFreshness.EvictedStaysPublished` | pkg/floatingip/ip_controller.go:463-475 | a conserved state and one answer after which an IP that is not active stays published with no update due |
| `PoolDns.ActiveIPsExact` | pkg/floatingip/ip_controller.go:627-632 | the collected list is the subsequence of the spec IPs in state active |
| `PoolDns.CrashesExactlyWhen` | pkg/floatingip/ip_controller.go:628-629 | a pass dereferences nil if and only if it goes on to update DNS although the poll was cut short before an IP without a status |
| `PoolCrash.CrashesFromBeforePoll` | pkg/floatingip/ip_controller.go:628-629 | over runs, with a context that stays cancelled once it is: the pass dereferences nil if and only if there is a DNS spec, an IP without status lies beyond the cut, and the update was due before the poll or the poll reached an IP at all |
| `PoolCrash.RunDue` | pkg/floatingip/ip_controller.go:188-764 | in every reachable state with a DNS spec, a spec IP without a status means that a DNS update is due or that no IP has a status yet |
| `PoolDns.UncancelledPassSurvives` | pkg/floatingip/ip_controller.go:277-299 | a pass whose poll is not cancelled never does |
| `PoolDns.CancelledStartCrashes` | pkg/floatingip/ip_controller.go:628-629 | a run from an empty pool that does |
| `PoolFlap.FlapRestores` | pkg/floatingip/ip_controller.go:647-764 | on a conserved state, disabling any IP-holding nodes and enabling them again, in any orders, restores claims, owners, active set and both queues with their order |
| `PoolConfiguration.ConfigurationOverRuns` | pkg/floatingip/ip_controller.go:162-825 | over every run the configuration is the one given last: provider, region and cool-off, target, DNS record, and exactly the enabled nodes since they were disabled or the home changed, each under the name it was first given |
| `PoolConfiguration.SpecIsCut` | pkg/floatingip/ip_controller.go:188-245 | the spec is cut to its first desiredIPs addresses; what is known of those is kept, all else forgotten; an update becomes due if and only if the list changes, or the target to another number than the list has without one |
| `PoolConfiguration.RecordIsTaken` | pkg/floatingip/ip_controller.go:804-825 | a record with zone and name is taken with a TTL of 60 for a missing one, any other gives none; an update becomes due exactly if it is another record, and not without one |
| `PoolConfiguration.SameRecordAgain` | pkg/floatingip/ip_controller.go:807-823 | the same record given again changes nothing, unless its TTL was left out: then an update is due again |
| `PoolConfiguration.HomeIsTaken` | pkg/floatingip/ip_controller.go:162-186 | on the same provider and region only the cool-off and the next assignment change; on another one everything learned from the provider is forgotten, and spec, created IPs, creation retry and DNS record stay |
| `Wakeups.NoLostWakeup` | pkg/floatingip/ip_controller.go:248-264 | after any interleaving, changes the last reconcile did not see mean that a token waits, the loop is on its way to reconcile, or it is not running; in select the token can be taken at once |
| `Wakeups.RunKeeps` | pkg/floatingip/ip_controller.go:766-771 | the invariant behind it, mutators inside the lock that still owe a poke included |
| `Wakeups.CanAlwaysCatchUp` | pkg/floatingip/ip_controller.go:248-264 | from every such state with the loop running, all changes made so far can be seen by a reconcile without the retry timer |
| `DnsRecordSets.EnsureDigitalOcean` | pkg/provider/digitalocean.go:356-446 | for any zone, page size, order of ranging and failing calls, the list of writes made is safe at every step (other records unchanged, published wanted addresses stay, a non-empty set with a wanted address never becomes empty); all of them succeeded, and it returns an error only because a further write that the update needs, or a page that the listing asks for, failed; without an error no such page failed and the set holds one record per distinct wanted IP, all with the wanted TTL, nothing else, after max(missing, surplus) writes plus the stale records kept, and never more |
| `DnsRecordSets.EnsureCloudflare` | pkg/provider/cloudflare.go:100-183 | the same for the unpaged listing in any order, a proxied record counting as stale; it returns an error only because the listing or a further write that the update needs failed |
| `DnsRecordSets.PageShowsOriginal` | pkg/provider/digitalocean.go:378-414 | the edits made while listing disturb neither the paging nor the records still to be listed |
| `DnsRecordSets.FoundIsClassified` | pkg/provider/digitalocean.go:386-405 | the listing keeps exactly one record per wanted address seen, marks every other record of the set for deletion once, and leaves the wanted addresses not seen |
| `DnsRecordSets.PublishMissing` | pkg/provider/digitalocean.go:416-434 | for some order of ranging over the missing addresses, exactly one write for each in that order: an edit of the next surplus record while there is one, then creates; it stops before the first write that fails and only then returns an error |
| `DnsRecordSets.DeleteUnneeded` | pkg/provider/digitalocean.go:436-443 | then one delete for each record not reused, in order, up to the first that fails |
| `DnsRecordSets.SettleIsExact` | pkg/provider/digitalocean.go:416-443 | these writes are safe one by one wherever they stop, and once all are made the record set is exactly the wanted one |
| `DnsRecordSets.UpdateIsSafe` | pkg/provider/digitalocean.go:378-443 | the same for the whole update, the edits made while listing included |
| `DnsRecordSets.SettlingIsSafe` | pkg/provider/digitalocean.go:416-443 | between listing and end, whatever call fails next, the published wanted addresses are all there and the set is not empty if it was not |
| `DnsMinimality.NoShorterUpdate` | pkg/provider/digitalocean.go:416-443 | no sequence of changes to one record at a time, to whatever fields, reaches the wanted set in fewer than LeastWrites steps |
| `DnsMinimality.SomeUpdateIsShortest` | pkg/provider/digitalocean.go:416-443 | some sequence of edits, creates and deletes of that length does |
| `DnsMinimality.LeastExactlyWhen` | pkg/provider/digitalocean.go:386-443 | a completed update took the least number of writes if and only if, for every wanted address that has a record with the right TTL, the first one listed has it |
| `DnsMinimality.LeastWithRightTtls` | pkg/provider/digitalocean.go:416-443 | with TTLs already right that number is max(missing, surplus) |
| `DnsMinimality.WrongFirstCostsOneMore` | pkg/provider/digitalocean.go:391-401 | two records of one address, the wrong TTL listed first: two writes where one would do |
| `DnsMinimality.NothingNeeded` | pkg/provider/digitalocean.go:356-357 | no write is needed exactly when the set is already as wanted |
| `DnsMinimality.RunningAgain` | pkg/provider/cloudflare.go:122-144 | updating an exact zone again writes nothing on DigitalOcean, for any listing; on Cloudflare if and only if no record of the set is proxied |
| `DnsMinimality.UpdateTwiceDigitalOcean` | pkg/provider/digitalocean.go:356-446 | an update run again after it succeeded writes nothing, whatever fails, and returns an error if and only if one of the pages it asks for fails |
| `DnsMinimality.UpdateTwiceCloudflare` | pkg/provider/cloudflare.go:100-183 | an update run again after it succeeded writes nothing if and only if no record of the set is proxied by then, and so if the zone had none to begin with |
| `DnsMinimality.NeverProxied` | pkg/provider/cloudflare.go:125-170 | no write of an update makes a record proxied in a zone that has none |
| `DnsMinimality.WritesAreChanges` | pkg/provider/digitalocean.go:392-443 | every write of an update changes one record and keeps IDs unique, so the lower bound applies to the updates |
| `NodeMatchControllers.Controller.IsNodeMatch` | pkg/nodematch/match_controller.go:438-463 | the loops say exactly whether the last Ready condition is true, the labels match, and every taint is tolerated |
| `NodeMatchControllers.Controller.UpdateNode` | pkg/nodematch/match_controller.go:278-347 | after any node update the enabled set and the pods tracked on matching nodes are again those computed from scratch, across match flips and annotation changes, in any order of the node's pods |
| `NodeMatchControllers.Controller.DeleteNode` | pkg/nodematch/match_controller.go:272-276 | the node is forgotten and disabled, all others kept up to date |
| `NodeMatchControllers.Controller.UpdatePod` | pkg/nodematch/match_controller.go:349-421 | exactly which pods are tracked and whether the node is enabled after a pod update, ignored cases included |
| `NodeMatchControllers.Controller.DeletePod` | pkg/nodematch/match_controller.go:423-436 | the pod is no longer tracked, and the node is disabled if it was the last |
| `NodeMatchControllers.Controller.OnPodUpdate` | pkg/nodematch/match_controller.go:471-482 | a pod update brings enabled set and tracked pods in step with the new pod index |
| `NodeMatchControllers.Controller.OnPodDelete` | pkg/nodematch/match_controller.go:485-496 | so does a pod deletion |
| `NodeMatchControllers.Controller.Handle` | pkg/nodematch/match_controller.go:465-496 | any one event keeps the invariant; and if the action had exactly the wanted provider IDs enabled, it has them afterwards if and only if the event did not put another machine under the name of an enabled node |
| `NodeMatchControllers.Controller.Replay` | pkg/nodematch/match_controller.go:465-496 | after any sequence of node and pod events the enabled set equals the one recomputed from the cluster's latest objects, matching nodes track exactly the pods that qualify them, and unless an event replaced the machine of an enabled node the action has exactly the wanted provider IDs enabled |
| `NodeMatchControllers.RecreatedIsMissed` | pkg/nodematch/match_controller.go:299-313 | two events after which the action does not have the wanted provider IDs: a node recreated under its name for another machine |
| `NodeMatchControllers.TrackOneMore` | pkg/nodematch/match_controller.go:330-332 | rebuilding a node's pods one by one tracks exactly those that qualify, and the node is enabled if there are some, or if it was at first |
| `NodeMatchControllers.PodUpdateInStep` | pkg/nodematch/match_controller.go:349-421 | updatePod's effect restores the invariant for the new index, on the pod's node and on all others |
| `LeaderElection.ReleaseIsSafe` | pkg/leaderelection/leaderelection.go:52-62 | in every interleaving, once the cancel goroutine has canceled the leader context no child is running and none ever will |
| `LeaderElection.RunKeeps` | pkg/leaderelection/leaderelection.go:52-121 | the invariant behind it: one thread in the lock, the wait group counts the children, and how far the cancel goroutine can be |
| `LeaderElection.EveryFunctionIsStarted` | pkg/leaderelection/leaderelection.go:92-111 | over every run, the children that came to run, plus those about to, plus those the holder of the lock has yet to spawn, are all the functions once for each OnStartedLeading that saw a live context |
| `LeaderElection.EachStartStartsAll` | pkg/leaderelection/leaderelection.go:92-111 | so between two moments with the lock free exactly that many children were started |
| `LeaderElection.NoContextNoChild` | pkg/leaderelection/leaderelection.go:112-121 | whenever the lock is free and there is no child context there is no child: OnStoppedLeading waited for all |
| `LeaderElection.StoppedMeansStopped` | pkg/leaderelection/leaderelection.go:112-121 | in every interleaving, an OnStoppedLeading about to release the lock, whatever way it took, leaves no child context, no child running and none about to |
| `LeaderElection.AddNeverMeetsWait` | pkg/leaderelection/leaderelection.go:100-103 | nobody adds to the wait group while somebody waits on it, and it never drops below the children |
| `LeaderElection.ToldExactlyWhen` | pkg/leaderelection/leaderelection.go:112-121 | a child somebody waits for has been told to stop if and only if it has a context and either the parent context is done or the child is of the last start; the cancel goroutine waits only with the parent context done |
| `LeaderElection.FirstStartIsForgotten` | pkg/leaderelection/leaderelection.go:102-121 | a run with two starts where OnStoppedLeading waits for a child that nobody told to stop |
| `LeaderElection.NilExactlyWhen` | pkg/leaderelection/leaderelection.go:104-121 | a child that is only now scheduled gets a nil context if and only if an OnStoppedLeading is waiting on the group |
| `LeaderElection.CanAlwaysRelease` | pkg/leaderelection/leaderelection.go:52-62 | from every reachable state with the parent context done the lease can still be released: no deadlock |
| `LeaderElection.EarlyReturnProvesNothing` | pkg/leaderelection/leaderelection.go:115-117 | a run where OnStoppedLeading returns early with the context alive and a child runs afterwards |
| `LeaderElection.EarlyReturnFinalExactlyWhen` | pkg/leaderelection/leaderelection.go:83-121 | with no child context and an empty wait group, some continuation without another callback has a running child if and only if an OnStartedLeading has passed its context check, or is yet to make it with the context alive |
| `LeaderElection.FinalOnceUnlocked` | pkg/leaderelection/leaderelection.go:112-121 | the same with the lock free: if and only if the parent context is alive and an OnStartedLeading waits for the lock |
| `LeaderElection.FinalOnceDone` | pkg/leaderelection/leaderelection.go:112-121 | once the parent context is done and no start is past its check, no child ever runs again, whatever callbacks follow |
| `LeaderElection.LateChildGetsNoContext` | pkg/leaderelection/leaderelection.go:104-109 | a run where a child is handed a nil context |

## Left out

- `IpControllers.IpController.UpdateProviders`: does not say that a change of provider stops the run loop, nor replaces the DNS provider field; `Wakeups` models the loop, and the DNS provider is opaque.
- `IpControllers.IpController.UpdateIPs`: does not compute `disabledIPs`, the status update and the node annotations that a forgotten IP triggers; they are reporting only.
- Status reporting: `buildStatusUpdate`, `updateStatus`, `createError`, `disabledIPs`, assignment counters, node annotations, metrics and logging. Messages are kept as opaque values because they decide whether DNS is due.
- `IpController` keeps its two work queues as sequences; `OrderedSet` is proved separately to refine them. Status and retry records, pointers in the source, are values written back to their maps; the same goes for the node records of `Controller`.
- `DNSProvider` selection: the DNS provider is replaced together with provider and region only, as in the source, and is otherwise opaque.
- `reflect.DeepEqual` tells a nil slice from an empty one; the model does not.
- DNS names, `RecordNameAndZoneToFQDN`, record types other than A, HTTP and SDK calls, and the mapping of their errors.
- `Controller`: the phase before priming and the `enabled` field it uses (kept, but nothing is proved of it), label-selector parsing and `ToleratesTaint` (any predicates here), informers and listers.
- `LeaderElection`: the elector itself, and the deferred cancel when the function returns. Both are client-go's business or happen after it.
- `Wakeups`: what the retry timer is set to; it may fire at any moment here (`PoolTimer` and `PoolTimerCause` have what a pass sets it to). Every change counted there is one that the source follows with a poke: `updateDNSSpec` with a nil or incomplete spec (ip_controller.go:810-817) and the early return of `updateIPs` (ip_controller.go:196-200) set fields without poking, and nothing is promised about when a reconcile sees those. `updateProviders` is not one of the mutators, as it takes no lock and pokes nobody.
- `NodeToIP` of the DigitalOcean provider: its loop index moves the wrong way, so the search it intends has no termination argument to prove.
- The FloatingIPPool and NodeDNS controllers, which do validation and status writes around these cores; generated clients, deep copies, command line.
