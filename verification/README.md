# Cellar control plane: model and proofs

Cellar places sandboxes on the nodes of a cluster, moves them away when a node dies or drains, and
fences late status reports with a generation number that every move raises.  This project models the
parts where that is decided and proves what they promise:

- the spread scheduler and the evacuation planner (`Scheduler`, `Vacate`, `VacatePlan`, `VacateSpread`,
  and `Planner` for the loops over shared records that the program runs);
- the replicated state machine, its name indexes and its snapshots (`Fsm`, `FsmIndex`, `FsmMeaning`, and
  `FsmHeap` and `FsmIsolation` for the maps of references the program keeps);
- the leader's handlers and the eviction round (`Control`, `Handlers`, `Eviction`, and `ControlServer`
  for the methods that change records in place);
- the whole fencing protocol as a transition system with its invariant and its run theorems
  (`Protocol`, `ProtocolSafety`, `ProtocolRuns`, `ProtocolSteps`, `ProtocolQuarantine`,
  `EvictionRounds`, `SplitHandlers`, and `LateStart` for one run spelled out);
- the smaller state machines: quarantine (`Quarantine`), the node-local agent and its restart backoff
  (`Agent`, `AgentBackoff`, `AgentActions`), certificate renewal (`Renew`), manager failover (`Upstream`) and the list
  of manager addresses (`Endpoints`).

Code that computes a value is a function.  Code that changes state step by step is a class or a method
with a loop, proved equal to such a function, and the theorems are about the function.  What such a
function does is said again in the terms of the records before and after it, by predicates that the code
does not use (`Scheduler.Open`, `Scheduler.Fresh`, `Scheduler.Silent`, `Vacate.MovedAway`,
`Vacate.FailedInPlace`, `Handlers.Carries`, `Handlers.HasBeaten`, `Handlers.IsNew` and their like).  `Records`,
`Seqs` and `Heap` hold the data: records as values, and records as references to structures whose label
maps and mount lists are themselves shared.

Instants are integers counting nanoseconds (seconds as reals in `Renew`); a heartbeat stamp that was
never set is `None`.  A loop over a map of the program visits the keys in an arbitrary order, which is a
parameter or an arbitrary choice here, and every result holds for all orders.

The theorems about the protocol make three assumptions that the code does not enforce.  A handler is one
step: what it read is still true when its save commits (`SplitHandlers` says exactly when a later save of
a start, a stop or a status report is harmless, and what goes wrong otherwise).  An identifier given to a create request was not used before.
The clock of the leader does not go back.

## Results that are not what one might expect

- A save without any name leaves the old name in the sandbox index
  (`FsmIndex.NamesStayExactIff`, `FsmIndex.UnnamedSandboxIsStillFound`).
- Deleting a default volume, or turning it into a named one under another name, frees a name that may
  belong to a named volume, so that two named volumes can come to share it
  (`FsmIndex.VolumeNamesStayExactIff`, `FsmIndex.DefaultVolumeFreesName`).
- A snapshot gives the state back for every visiting order exactly when both indexes are exact
  (`FsmIndex.RestoreGivesBackIff`).
- A start, a stop or a status report that saves after a move what it read before the move makes the
  generation fall and fences the new owner instead of the old one (`SplitHandlers`); `LateStart` gives a
  run of eleven steps in which this happens.
- The loop that rebuilds the sandbox index leaves different results for different orders as soon as two
  sandboxes share a name (`FsmIndex.RebuildIsOrderIndependentIff`).
- `NextCheck` and `Needed` disagree on the renewal window when the threshold is outside the open unit
  interval, because only one of them replaces it by the default (`Renew.WindowsDisagree`).
- A sandbox that failed to start and is then unassigned keeps its backoff, because the agent forgets only
  what it tracks (`Agent.Reconciler.Reconcile`).

## Model

| member | source | states |
|---|---|---|
| `Scheduler.LoadUpdate` | internal/scheduler/scheduler.go:39-48 | replacing one sandbox changes the load of a node by what the two records contribute to it |
| `Scheduler.FirstMin` | internal/scheduler/scheduler.go:50-82 | finds the first candidate of least load, strictly less than every earlier one, and nothing only if no node qualifies |
| `Scheduler.SelectNodeMeaning` | internal/scheduler/scheduler.go:38-87 | the choice is a live first-least-loaded node exactly when the separate guard says a live node exists; otherwise the first least loaded of the others, or nothing; never an excluded node |
| `Scheduler.ChoiceMeaning` | internal/scheduler/scheduler.go:38-87 | the choice is the first accepted node that is neither paused nor draining nor excluded and has the fewest sandboxes, among those heard in the last thirty seconds if there are any; and nothing exactly if there is none at all |
| `Scheduler.LoadIsCount` | internal/scheduler/scheduler.go:39-48 | the load of a node is the number of listed sandboxes on it that are not to be removed |
| `Vacate.ClassifyMeaning` | internal/scheduler/evict.go:138-152 | the reason found is exactly the one that applies: gone, else stale, else draining |
| `Vacate.SourceIsNoTarget` | internal/scheduler/scheduler.go:90-108 | a node that sandboxes must leave is never a live candidate, because of the gap between thirty and sixty seconds |
| `Vacate.SelectionFindsTarget` | internal/scheduler/evict.go:107-115 | under the guard the selection always yields a good target other than the source, so the test after it never fires |
| `Vacate.DecideOneFits` | internal/scheduler/evict.go:69-134 | something is decided for a sandbox exactly when it must leave and either binds the host or has a live target; a failed record is failed, a moved one created, both without local name and times, stamped now, with the message of the reason |
| `Vacate.MessageMeaning` | internal/scheduler/evict.go:154-187 | what each message says: the reason, and at most twelve characters of the node |
| `Vacate.ChoicesFit` | internal/scheduler/evict.go:68-135 | every decision of a plan fits the assignments as they stood when it was taken |
| `VacatePlan.PlanFrame` | internal/scheduler/evict.go:56-66 | a plan changes only records it decided on, and in them only node, generation, status and update time; a move takes generation g to max(g,1)+1 |
| `VacatePlan.OneDecisionEach` | internal/scheduler/evict.go:68-135 | each sandbox has at most one decision, filed under its identifier and holding its planned record |
| `VacatePlan.EveryTargetIsGood` | internal/scheduler/evict.go:107-134 | every move goes to an accepted node that is neither paused nor draining nor excluded, heard in the last thirty seconds and other than the source: the first with the fewest sandboxes at that moment |
| `VacatePlan.DecisionsRead` | internal/scheduler/evict.go:43-136 | every decision of a plan reads as a failure in place or a move of a sandbox that must leave, and a sandbox without one need not leave, may stay, or has nowhere to go |
| `VacatePlan.PlannedReads` | internal/scheduler/evict.go:69-135 | what a plan makes of one sandbox, exactly, whatever the others are |
| `VacatePlan.PlanConserves` | internal/scheduler/evict.go:117-134 | the load of every node changes by the moves to and from it, and the total number of assignments is preserved |
| `VacatePlan.AllOrNothing` | internal/scheduler/evict.go:69-135 | if a live target exists, no running sandbox without host mounts is left on a gone, stale or draining node; otherwise nothing moves |
| `VacatePlan.OrderIndependent` | internal/scheduler/evict.go:43-136 | which sandboxes are decided on, why, and whether as a mount failure, does not depend on the order of either list |
| `VacatePlan.Fixpoint` | internal/scheduler/evict.go:43-136 | planning again on the plan with any list orders and larger exclusions moves nothing and repeats exactly the host-mount failures |
| `VacateSpread.SpreadIsEven` | internal/scheduler/evict.go:111-114 | every target that received a move ends at most one above any other target |
| `VacateSpread.SpreadIsOptimal` | internal/scheduler/evict.go:111-114 | no other distribution of the same number of moves over the targets has a smaller maximum load |
| `VacateSpread.MovedOnlyToTargets` | internal/scheduler/evict.go:107-118 | a target loses nothing: its load grows by exactly the moves to it |
| `Planner.SelectNodeOpts` | internal/scheduler/scheduler.go:38-87 | the two counting and scanning loops compute the specified choice |
| `Planner.HasLiveNode` | internal/scheduler/scheduler.go:110-131 | the scan answers whether a live candidate exists |
| `Planner.VacateOne` | internal/scheduler/evict.go:69-134 | one round decides as specified and changes only the working copy of its sandbox |
| `Planner.PlanVacate` | internal/scheduler/evict.go:43-136 | the loop that updates cloned records in place returns the specified decisions, writes to no record it was given, and returns only records of its own |
| `Quarantine.Tracker.MarkEvicted` | internal/scheduler/quarantine.go:25-33 | marking starts the count of a node again at zero |
| `Quarantine.Tracker.NoteHeartbeat` | internal/scheduler/quarantine.go:36-52 | a heartbeat counts for a marked node and releases it at the third |
| `Quarantine.Tracker.Excluded` | internal/scheduler/quarantine.go:55-69 | returns the identifiers held off |
| `Quarantine.Tracker.Contains` | internal/scheduler/quarantine.go:72-80 | after any events, from whatever counts the tracker started with, tells whether the node was marked and fewer than three of its heartbeats followed |
| `Quarantine.RunMeaning` | internal/scheduler/quarantine.go:25-69 | after any sequence of marks and heartbeats, from any starting counts, a node is held off exactly if it was marked and fewer than three heartbeats followed its last mark, and its count is their number |
| `Quarantine.MarkForgetsStart` | internal/scheduler/quarantine.go:25-33 | for a node marked in the sequence the starting counts do not matter |
| `Fsm.ExecAppend` | internal/raftstore/fsm.go:47-84 | a log may be applied in two parts |
| `Fsm.SandboxesByNode` | internal/raftstore/fsm.go:655-665 | lists exactly the sandboxes assigned to the node |
| `FsmIndex.NamesAreUnique` | internal/raftstore/fsm.go:239-283 | for every log, no two stored sandboxes share a non-empty name, and every record is filed under its own identifier |
| `FsmMeaning.DeleteSandboxMeaning` | internal/raftstore/fsm.go:266-283 | after any log, a deletion is answered Ok exactly if the sandbox was stored; then it and its name are gone, with an exact index nothing leads to it, and everything else is as before |
| `FsmMeaning.SaveSandboxMeaning` | internal/raftstore/fsm.go:239-264 | after any log, a save stores the record under its own name or that of its specification, where it is found; all others stay and stay findable; with an exact index it is refused exactly if another sandbox has the name, and the old name is freed |
| `FsmMeaning.DeleteVolumeMeaning` | internal/raftstore/fsm.go:306-323 | a deletion drops the volume and exactly the index entry of its name |
| `FsmMeaning.SaveVolumeMeaning` | internal/raftstore/fsm.go:285-304 | a save stores the volume, indexes a named one under its name and frees its old one; with an exact index it is refused exactly if another named volume has the name |
| `FsmMeaning.LastWriteWins` | internal/raftstore/fsm.go:87-237 | nodes, peers, keys and the cluster are registers: after any log they hold what the log wrote there last |
| `FsmMeaning.ResponseMeaning` | internal/raftstore/fsm.go:47-84 | which commands on those tables are answered Ok, read off the log before them |
| `FsmIndex.SandboxLookupIsScan` | internal/raftstore/fsm.go:631-643 | with an exact sandbox index, and whatever the volume index, a lookup by a non-empty name finds what a scan of the sandboxes finds |
| `FsmIndex.VolumeLookupIsScan` | internal/raftstore/fsm.go:677-689 | with an exact volume index a lookup by name finds what a scan for a named volume finds |
| `FsmIndex.NamedSandboxesAreExact` | internal/raftstore/fsm.go:239-283 | every log that names the sandboxes it saves keeps the sandbox index exact, whatever it does to volumes |
| `FsmIndex.SandboxLookupOverLogs` | internal/raftstore/fsm.go:631-643 | after every such log sandbox lookup equals scan |
| `FsmIndex.SeparateVolumesAreExact` | internal/raftstore/fsm.go:285-323 | every log with names on named volumes, one kind per volume and no default volume under a named one's name keeps the volume index exact, whatever it does to sandboxes |
| `FsmIndex.VolumeLookupOverLogs` | internal/raftstore/fsm.go:677-689 | after every such log volume lookup equals scan |
| `FsmIndex.NamesStayExactIff` | internal/raftstore/fsm.go:239-283 | exactly which commands keep the sandbox index exact |
| `FsmIndex.VolumeNamesStayExactIff` | internal/raftstore/fsm.go:285-323 | exactly which commands keep the volume index exact |
| `FsmIndex.ExactThroughoutIff` | internal/raftstore/fsm.go:47-84 | both indexes are exact after every prefix of a log if and only if no command of it breaks one |
| `FsmIndex.PlainLogIsOrderly` | internal/raftstore/fsm.go:239-323 | a log that does both breaks neither index at any point |
| `FsmIndex.RebuildMeaning` | internal/raftstore/fsm.go:410-421 | in whatever order it visits the sandboxes, the rebuilding loop indexes exactly their names, each under a sandbox that has it, and the last visited one wins |
| `FsmIndex.RebuildIsOrderIndependentIff` | internal/raftstore/fsm.go:410-421 | the loop leaves one index for all orders if and only if no two sandboxes share a non-empty name |
| `FsmIndex.RestoreGivesBackIff` | internal/raftstore/fsm.go:353-493 | restoring a snapshot gives the state back for every pair of visiting orders exactly when both indexes were exact |
| `FsmIndex.SnapshotThenReplay` | internal/raftstore/fsm.go:353-493 | for every log and every cut at which both indexes are exact, restoring the snapshot at the cut in any orders and applying the rest gives the state and responses of the whole log |
| `FsmIndex.UnnamedSandboxIsStillFound` | internal/raftstore/fsm.go:251-262 | a save without a name leaves the old name leading to the sandbox |
| `FsmIndex.DefaultVolumeFreesName` | internal/raftstore/fsm.go:306-323 | a deleted default volume lets two named volumes take one name |
| `FsmHeap.FileSandbox` | internal/raftstore/fsm.go:239-264 | filing a clone updates record map and index as specified |
| `FsmHeap.CopyImage` | internal/raftstore/fsm.go:353-387 | the copy loops yield a snapshot denoting the same records; its sandboxes, volumes, keys and cluster record are all new, and its node structures too, so that only the labels of nodes are shared |
| `FsmHeap.IndexSandboxes` | internal/raftstore/fsm.go:410-421 | the rebuild loop computes the specified index for the order it takes |
| `FsmHeap.Store.Apply` | internal/raftstore/fsm.go:47-84 | every operation, on maps of references, does to the denoted state what the function says, and writes to no stored record |
| `FsmHeap.Store.SaveSandbox` | internal/raftstore/fsm.go:239-264 | replaces the record by a clone under its effective name and updates the index, or refuses and changes nothing |
| `FsmHeap.Store.DeleteSandbox` | internal/raftstore/fsm.go:266-283 | answers Ok exactly for a stored sandbox, and drops the record and its index entry |
| `FsmHeap.Store.SaveVolume` | internal/raftstore/fsm.go:285-304 | replaces the volume and updates the index |
| `FsmHeap.Store.DeleteVolume` | internal/raftstore/fsm.go:306-323 | drops the volume and the index entry of its name |
| `FsmHeap.Store.Snapshot` | internal/raftstore/fsm.go:353-387 | returns a snapshot that persists as the present state, made of new objects but for the labels of nodes |
| `FsmHeap.Store.Restore` | internal/raftstore/fsm.go:390-493 | leaves the state that restoring gives for the orders the loops take |
| `FsmHeap.Store.GetSandbox` | internal/raftstore/fsm.go:621-629 | returns the stored record as a clone of its own |
| `FsmHeap.Store.ListSandboxesByNode` | internal/raftstore/fsm.go:655-665 | returns clones of the node's sandboxes in the order of the visit |
| `FsmIsolation.SnapshotThenApply` | internal/raftstore/fsm.go:353-387 | whatever is applied after a snapshot returned, it still persists as the state it was taken from |
| `FsmIsolation.OverwriteWhatWasGot` | internal/raftstore/fsm.go:621-629 | a caller may overwrite everything it reached through a returned record: store and snapshots do not change |
| `FsmIsolation.OverwriteNodeGot` | internal/raftstore/fsm.go:569-579 | the same for node records: store and snapshots do not change |
| `FsmIsolation.RestoreAndCatchUp` | internal/raftstore/fsm.go:390-493 | a replica that restores a snapshot persisted late, taken where both indexes were exact, and applies the rest of the log ends as the replica that applied everything, with the same responses |
| `Control.FirstVolumeDecides` | internal/grpcapi/sandbox.go:105-115 | the first named volume that is missing or lives on a node decides: refusal, or that node |
| `Control.ChoiceStands` | internal/grpcapi/sandbox.go:102-115 | without such a volume the scheduler's choice stands |
| `Control.FirstMountDecides` | internal/grpcapi/sandbox.go:105-115 | the same read off the mounts: the first mount, in their order, whose named volume is missing or lives on a node decides |
| `Control.PinFailsIff` | internal/grpcapi/sandbox.go:105-115 | pinning fails exactly if such a mount comes first whose volume is missing |
| `Control.SaveMeaning` | internal/raftstore/store.go:330-348 | the state changes exactly if the command is committed, success is told exactly if that is confirmed and answered Ok, and each failure exactly for its cause |
| `Control.ValidSpecMeaning` | internal/sandbox/sandbox.go:454-515 | a specification is valid exactly if its name without surrounding white space has one to 128 characters and every named mount has a name |
| `Handlers.CreateMeaning` | internal/grpcapi/sandbox.go:66-144 | an invalid request is refused as such, a valid one for its name exactly when a stored sandbox has it; success files one record as requested, under the given or generated identifier, and found under its name; failure changes nothing; the index stays exact |
| `Handlers.CreateSucceedsIff` | internal/grpcapi/sandbox.go:66-144 | a committed request succeeds exactly if it is valid, its name free, an identifier at hand and no volume missing |
| `Handlers.PlacementMeaning` | internal/grpcapi/sandbox.go:93-104 | without named volumes the sandbox goes to a node with the fewest stored sandboxes among the accepted, neither paused nor draining nor held-off ones heard in the last thirty seconds, else among all such, else to none |
| `Handlers.CreateAdds` | internal/grpcapi/sandbox.go:117-143 | whatever becomes of its save, a request adds at most the sandbox it describes, so placed |
| `Handlers.SetDesiredMeaning` | internal/grpcapi/sandbox.go:146-182 | once committed, start and stop of a stored sandbox change only the wish and the update time; a sandbox that is not stored is reported missing |
| `Handlers.RemoveMeaning` | internal/grpcapi/sandbox.go:184-198 | once committed, a removal leaves neither the record nor, with an exact index, a way to it, and changes nothing else; a sandbox that is not stored is reported missing |
| `Handlers.StatusMeaning` | internal/grpcapi/sandbox.go:316-344 | a report is refused for a missing sandbox, from an outsider, and with another than a positive stored generation, in this order and without a change; any other is stored as sent, once committed, and nothing else changes |
| `Handlers.HeartbeatMeaning` | internal/grpcapi/sandbox.go:240-277 | no identifier, an outsider and a missing record are answered each in its way, without a change; else, once committed, the record has the present as stamp, the reported address and count, and is otherwise kept, and the answer carries its role and lists each of its stored sandboxes once |
| `Handlers.LocalHeartbeatMeaning` | internal/daemon/sandbox.go:152-182 | the same for the leader itself, which files an accepted node of its role if it has no record |
| `Eviction.DecisionsFitStore` | internal/daemon/evict.go:38-50 | every decision of a round is about a stored running sandbox, names a stale source exactly for the heartbeat reason, and moves only to live nodes not held off |
| `Eviction.SaveAllMarks` | internal/daemon/evict.go:55-70 | the quarantine after a round is the one before with the marks of its saved heartbeat decisions, and only their sources are marked |
| `Eviction.SaveUnderStoredName` | internal/raftstore/fsm.go:251-262 | saving a record under its stored name is never refused |
| `Eviction.EvictionRealisesPlan` | internal/daemon/evict.go:28-79 | a round whose saves are all committed leaves exactly the planned records in the store, whatever the list orders |
| `ControlServer.SandboxServer.Create` | internal/grpcapi/sandbox.go:66-144 | creates as specified, reading clones of the store and the quarantine, and generating an identifier where none is given |
| `ControlServer.SandboxServer.SetDesired` | internal/grpcapi/sandbox.go:146-182 | start and stop change only the wish and the update time |
| `ControlServer.SandboxServer.Remove` | internal/grpcapi/sandbox.go:184-198 | deletes a stored sandbox, which is not stored any more when it reports success |
| `ControlServer.SandboxServer.Heartbeat` | internal/grpcapi/sandbox.go:240-283 | stamps the node, notes the heartbeat and answers with the role, the sandboxes and the manager addresses, or tells a removed node so |
| `ControlServer.SandboxServer.LocalHeartbeat` | internal/daemon/sandbox.go:152-176 | the leader's own heartbeat, which files a node record if there is none |
| `ControlServer.NodeDaemon.SendHeartbeat` | internal/daemon/sandbox.go:132-203 | on the leader the own server stamps, elsewhere a manager is asked and what it says about managers is applied; an answer replaces the cache, and empties it if the node was removed |
| `ControlServer.SandboxServer.UpdateSandboxStatus` | internal/grpcapi/sandbox.go:316-344 | checks peer and generation against the stored record before it saves the status |
| `ControlServer.SandboxServer.ReportLocally` | internal/daemon/sandbox.go:225-240 | a report of the leader's own node has the effect of one sent under that node's certificate |
| `ControlServer.SandboxServer.RunEviction` | internal/daemon/evict.go:28-79 | plans on clones, saves decision by decision and marks each source once, which equals the specified round |
| `ControlServer.NodeDaemon.CacheAssigned` | internal/daemon/sandbox.go:205-213 | the cache becomes the answered list |
| `ControlServer.NodeDaemon.FetchAssignments` | internal/daemon/sandbox.go:98-117 | hands out the store's list on the leader, else clones of the cache |
| `Protocol.ActAdvances` | internal/grpcapi/sandbox.go:66-344 | in every step a stored sandbox keeps its assignment or, in an eviction round only, moves to a live node with the next generation; new ones start at generation one; stamps stay or become the present |
| `Protocol.EveryScheduleRuns` | internal/daemon/sandbox.go:98-248 | every sequence of steps makes a run, so the theorems about runs cover every interleaving |
| `ProtocolSafety.StepIsSafe` | internal/daemon/sandbox.go:98-248 | the invariant over store, node lists, answers and reports in flight is inductive |
| `ProtocolRuns.OnlyCurrentReportsAreAccepted` | internal/grpcapi/sandbox.go:316-344 | fencing: at every point of every run a report in flight changes the store only if it comes from the current assignment (stored generation, stored node), however delayed, repeated or forwarded; such a report is accepted, and the sandbox then carries the reported status |
| `ProtocolRuns.OneNodePerGeneration` | internal/scheduler/evict.go:117-123 | over a run generations do not fall, and an identifier with a generation names one node for ever |
| `ProtocolRuns.RejectionIsFinal` | internal/sandbox/sandbox.go:398-403 | a report once not current is rejected at every later point of the run |
| `ProtocolRuns.OnlyEvictionMoves` | internal/scheduler/evict.go:117-123 | node and generation change together, only in an eviction round, from g to max(g,1)+1 |
| `ProtocolRuns.GoneForGood` | internal/grpcapi/sandbox.go:184-198 | a removed sandbox is never stored again |
| `ProtocolRuns.HeartbeatMeansStale` | internal/scheduler/evict.go:138-152 | the planner classifies a stored sandbox as heartbeat-stale exactly when its node is stored with a heartbeat more than sixty seconds old |
| `ProtocolRuns.MinimumResidence` | internal/scheduler/scheduler.go:12-17 | a moved sandbox does not sit on such a node until more than thirty seconds after the move |
| `ProtocolRuns.HeartbeatDecisionsComeLater` | internal/daemon/evict.go:38-50 | a decision for the heartbeat reason, in a round after a move of the same sandbox, comes more than thirty seconds after that move |
| `ProtocolSteps.DeliveredReport` | internal/grpcapi/sandbox.go:316-344 | in every run a delivered report changes nothing, or it is current and its sandbox then has its phase, message, local name and times, and nothing else changes; a current one does so once committed |
| `ProtocolSteps.WishIsStored` | internal/grpcapi/sandbox.go:146-182 | in every run a committed start makes a sandbox wanted, a committed stop unwanted, and nothing else about it or any other changes |
| `ProtocolSteps.RemovedForGood` | internal/grpcapi/sandbox.go:184-198 | once a removal is committed the sandbox is not stored, then or at any later point of the run |
| `ProtocolSteps.OnlyCreateAdds` | internal/grpcapi/sandbox.go:66-144 | a sandbox enters the store only by a create request, as it describes it, and placed as the quarantine of that moment allows |
| `ProtocolSteps.HeartbeatIsAnswered` | internal/grpcapi/sandbox.go:240-277 | in every run a confirmed heartbeat stamps the node, touches no other node and no sandbox, and is answered with exactly its stored sandboxes |
| `ProtocolSteps.RemovedNodeIsTold` | internal/daemon/sandbox.go:185-203 | a heartbeat of a node without a record is answered with an empty list |
| `ProtocolSteps.ListsMove` | internal/daemon/sandbox.go:98-117 | an answer becomes the cache, the agent works from the cache or, on the leader, from exactly the stored sandboxes of the node, and reports on what it works from |
| `ProtocolSteps.OnlyDeletionRemovesNodes` | internal/raftstore/fsm.go:188-202 | a node leaves the store only by its deletion |
| `ProtocolSteps.UpdatedNode` | internal/raftstore/fsm.go:186-198 | a committed node update stores the record it brings, with the stamp of the one it replaces |
| `ProtocolSteps.OwnHeartbeatIsAnswered` | internal/daemon/sandbox.go:152-182 | the same for the leader's own heartbeat as for any other |
| `ProtocolSteps.OtherSteps` | internal/raftstore/fsm.go:47-84 | a change of the leader brings its quarantine and nothing else; administration commands touch neither sandboxes nor nodes |
| `ProtocolSteps.OnlyTicksMoveTheClock` | internal/daemon/evict.go:28-51 | no step but a tick moves the clock |
| `ProtocolQuarantine.QuarantineMeaning` | internal/grpcapi/sandbox.go:264 | over one leadership, whatever marks it begins with, a node is in quarantine exactly if it was marked, then or before, and fewer than three of its heartbeats were noted since |
| `ProtocolQuarantine.NoMoveToHeldOffNode` | internal/daemon/evict.go:49-70 | in any leadership no move goes to a node held off by that history, counting the marks of the round that makes the move |
| `ProtocolQuarantine.NoCreateOnHeldOffNode` | internal/grpcapi/sandbox.go:102-115 | in any leadership a sandbox without named volumes is never created on a node held off by that history |
| `EvictionRounds.EvictionLeavesNobodyStranded` | internal/daemon/evict.go:28-79 | at any point of a run a fully committed round leaves no sandbox without host mounts on a gone, stale or draining node if a live target exists, and else moves nothing |
| `EvictionRounds.CommittedRound` | internal/daemon/evict.go:28-79 | what a fully committed round leaves of every sandbox, exactly: failed in place, moved to a live node outside the quarantine, or as it was |
| `EvictionRounds.AnyRound` | internal/daemon/evict.go:57-72 | whatever becomes of its saves, a round leaves every sandbox as it was, or failed or moved like that |
| `EvictionRounds.SilentSourcesAreHeld` | internal/daemon/evict.go:65-70 | after a fully committed round every silent node that lost a sandbox is in quarantine with no heartbeat counted |
| `EvictionRounds.SecondRoundChangesNothing` | internal/daemon/evict.go:28-79 | a second round right after a committed one leaves every stored sandbox as it is, whatever its list orders and outcomes |
| `SplitHandlers.LateSaveKeepsAssignmentIff` | internal/grpcapi/sandbox.go:146-182 | a start, stop or status report that saves what it read earlier in the run is never refused; it keeps the assignment if and only if the stored generation is the one it read; otherwise the generation falls |
| `SplitHandlers.LateSaveRevivesIff` | internal/grpcapi/sandbox.go:146-182 | such a save brings a removed sandbox back if and only if no other sandbox has taken its name |
| `SplitHandlers.LateStartRevivesFormerOwner` | internal/grpcapi/sandbox.go:146-163 | whenever a run moves a sandbox after a start read it, that start's save makes the former owner's report, rejected before, accepted, and every report of the owner rejected |
| `LateStart.LateStartHappens` | internal/grpcapi/sandbox.go:146-163 | such a run exists: eleven steps from the empty store, the last of which moves the sandbox while the former owner's report is in flight |
| `Agent.NextRestartDelay` | internal/runtime/agent.go:69-88 | the loop computes min(60, 5 * 2^n) seconds for every argument, negative ones included |
| `Agent.DelayTable` | internal/runtime/agent.go:69-88 | the delays are 5, 10, 20, 40 and then 60 seconds |
| `Agent.DelayMonotone` | internal/runtime/agent.go:69-88 | the delay grows with the attempts, between five and sixty seconds |
| `Agent.ReportsCarryTheGeneration` | internal/runtime/agent.go:194-291 | every report of a pass carries the generation of the assignment the pass works from |
| `Agent.WantedIsLast` | internal/runtime/agent.go:158-164 | of several assignments for one sandbox the last one counts |
| `Agent.Reconciler.Note` | internal/runtime/agent.go:293-299 | a failure is counted and bars attempts for the delay |
| `Agent.Reconciler.Create` | internal/runtime/agent.go:259-291 | waits while barred; else tries once, and clears the backoff only on success |
| `Agent.Reconciler.One` | internal/runtime/agent.go:194-257 | a pass over one sandbox does what its function says and touches no other |
| `Agent.Reconciler.Reconcile` | internal/runtime/agent.go:153-192 | nothing changes if listing fails; else, in whatever order, each assigned sandbox gets its own pass, exactly the tracked but unassigned ones are stopped, removed and dropped, and what is tracked is assigned |
| `Agent.Reconciler.TeardownLocal` | internal/runtime/agent.go:117-151 | stops and removes exactly the tracked machines, and forgets them and every backoff |
| `AgentBackoff.BackoffIsHistory` | internal/runtime/agent.go:293-299 | the recorded backoff is the number of failures since the last success or reset, and the delay for them after the last one |
| `AgentBackoff.AttemptsIff` | internal/runtime/agent.go:226-291 | a pass tries to create exactly when the sandbox should run, is not there, and that delay has passed |
| `AgentBackoff.BackoffIsRespected` | internal/runtime/agent.go:259-299 | after the k-th failure since the last success no attempt comes for 5, 10, 20, 40 or, from the fifth on, 60 seconds |
| `AgentBackoff.WaitIsCapped` | internal/runtime/agent.go:293-299 | a recorded wait is at most sixty seconds |
| `AgentBackoff.MakeRounds` | internal/runtime/agent.go:117-192 | over any passes, listed or not, and teardowns each sandbox's slot follows its own history, and each round does for it what that history and the round ask for |
| `AgentBackoff.ReasonIsHistory` | internal/runtime/agent.go:293-299 | the recorded reason is that of the last failure |
| `AgentActions.StoppingMeaning` | internal/runtime/agent.go:202-220 | a known machine is stopped before its sandbox is reported stopped, and is removed and forgotten exactly if the sandbox is to be removed |
| `AgentActions.InspectingMeaning` | internal/runtime/agent.go:222-257 | a known machine that should run is left alone exactly if the driver says it runs; if it says otherwise, the machine is stopped, removed and forgotten |
| `AgentActions.CreatingMeaning` | internal/runtime/agent.go:259-291 | an unknown one is created exactly if no backoff bars it, and tracked and reported running exactly if that succeeds |
| `AgentActions.ReportsAreTrue` | internal/runtime/agent.go:194-291 | a sandbox is reported running only if the driver said so or creating it succeeded, and failed only for a failure |
| `AgentActions.TrackedMachinesAreStopped` | internal/runtime/agent.go:117-192 | whatever the history, a tracked machine is stopped by the round that ends its life, and by no other unless it is found not running |
| `AgentActions.TrackingIsHistory` | internal/runtime/agent.go:194-291 | the agent tracks a machine exactly if a round made it known and none since ended that |
| `Renew.NeededMeaning` | internal/renew/renew.go:10-23 | renewal is needed exactly after the start of the window |
| `Renew.NeededAtTheEnd` | internal/renew/renew.go:10-23 | a certificate past its end, or without a lifetime, always needs renewal |
| `Renew.IntervalMeaning` | internal/renew/renew.go:25-46 | the interval is five minutes if renewal is needed, else the time to the window start, with the threshold as given, between a minute and an hour |
| `Renew.WindowsDisagree` | internal/renew/renew.go:10-40 | with a threshold outside the open unit interval test and interval use different windows |
| `Renew.FirstAttempt` | internal/daemon/daemon.go:943-969 | the loop ends after the whole hours and at most two more wake-ups, at an exactly given instant after the start of the window |
| `Renew.AttemptIsInTimeIff` | internal/renew/renew.go:27-46 | that instant is at most a minute after the start of the window, and before expiry for every start if and only if the window is longer than a minute |
| `Upstream.GrpcUpstream.MarkBad` | internal/gateway/upstream.go:221-231 | avoids the address for five seconds and forgets it as the working one |
| `Upstream.GrpcUpstream.MarkOK` | internal/gateway/upstream.go:233-240 | makes the address the working one and no longer bad |
| `Upstream.GrpcUpstream.PickOrder` | internal/gateway/upstream.go:242-270 | the two loops compute the specified order |
| `Upstream.RunMeaning` | internal/gateway/upstream.go:221-240 | the sticky address is the one that worked last and did not fail since; an address is bad exactly if it failed last, until five seconds after that |
| `Upstream.StickyIsNeverBad` | internal/gateway/upstream.go:221-240 | under any interleaving the sticky address is not among the bad ones |
| `Upstream.OrderMeaning` | internal/gateway/upstream.go:242-270 | on a duplicate-free list, read off the events: each listed address that did not fail less than five seconds ago, once, the one that worked last first; all of them if none is left; never empty for a non-empty list |
| `Upstream.OrderKeepsListOrder` | internal/gateway/upstream.go:257-265 | apart from the sticky address the list order is kept |
| `Endpoints.MergeManagerAddrs` | internal/grpcapi/endpoints.go:45-67 | the nested loops compute the specified merge |
| `Endpoints.ManagerEndpoints` | internal/grpcapi/endpoints.go:17-43 | the addresses of an answer are the merge of the leader's, the peers' and the manager's own |
| `Endpoints.ManagersMeaning` | internal/grpcapi/endpoints.go:17-43 | those addresses are the leader, the peers and the own one, each once, by first occurrence |
| `Endpoints.MergeMeaning` | internal/grpcapi/endpoints.go:45-67 | every non-empty address once, ordered by first occurrence, the preferred one first |
| `Endpoints.IdentityStore.ApplyManagerEndpoints` | internal/daemon/manager_dial.go:47-70 | persists the specified update, or nothing if persisting fails |
| `Endpoints.ApplyingIsIdempotent` | internal/daemon/manager_dial.go:47-70 | applying an answer twice is applying it once |
| `Endpoints.NothingIsForgotten` | internal/daemon/manager_dial.go:47-70 | an empty answer changes nothing; any other makes an answered leader the current manager and lists it, the answered addresses and the known ones, each once, in that order |
| `Endpoints.AnswerTeachesManagers` | internal/grpcapi/endpoints.go:17-43 | a node that applies an answer adds to what it knew exactly the leader, every peer and the answering manager, in whatever order the peers were read, and puts the leader first |

## Left out

- Planner.SelectNodeOpts: starts its minima empty instead of at the largest machine integer; the two differ only for a node that holds that many sandboxes.
- Renew.FirstAttempt: exact real arithmetic and exact sleeps; rounding of the threshold product and late timers are not modelled, nor is the minute's wait without an identity.
- Control.Create: the parts of a specification other than name, image kind and mounts, and the checks on them, are one flag of the request; names are counted in characters, and white space is ASCII.
- FsmHeap.Store.Restore: decoding is the identity on the modelled fields, the legacy snapshot shape is not modelled, and empty entries do not occur.
- AgentActions.ReportsAreTrue: a report is its phase and its generation; the message, local name and times the agent puts into it are not modelled.
- Agent.Reconciler.One: the agent has a driver; the driver, the reporter and the clock are inputs of each pass, and handles the driver keeps for a start that failed are not tracked.
- ControlServer.SandboxServer.RunEviction: asks for a store that files records under their own identifiers, which every log gives (`FsmIndex.NamesAreUnique`).
- Handlers are atomic steps in `Protocol`, without retries inside a step; `SplitHandlers` covers a late save of a start, a stop or a status report.
- ControlServer.NodeDaemon.SendHeartbeat: returns the desired role or the removal that the answer carries, but does not act on it; changing the role and clearing the identity are not modelled, nor is the choice among managers.
- ControlServer.SandboxServer.Heartbeat: forwarding by a manager that does not lead is not modelled; the addresses its replication layer knows are a parameter.
- Identifiers of create requests are fresh in `Protocol`; the handler itself does not check a given identifier.
- The planner's lists hold unique identifiers, as lists made from map keys do; absent list entries are entries with an empty identifier.
- The leader reads its own current state; a deposed leader reading an old state, and a command that commits after a later step, are not modelled. A command that commits although its caller is told of a failure is.
- Saturation and width of the program's integers and durations: generations, counts and instants are unbounded.
- Map entries updated in place are modelled as reassignment of the field that holds the map, and a table groups a record map with its name index.
- The operations that only older logs contain (`init_cluster`, `save_root_ca`, `save_cluster`): one may read the clock and one may change state before it fails.
- The replication library, transport, certificates, encoding, persistence, the gateway's handlers and the command line.
- Role changes of nodes: guards around remote calls; their saves are node updates that keep the heartbeat stamp.
- Where a sandbox with named volumes goes after an evacuation: the planner does not look at volumes, so volume affinity holds at creation only.
- When the gateway stops trying managers: the context of an attempt is cancelled before its error is looked at, so before the last manager every error counts as one worth trying the next manager for.
- Capacity and readiness checks before a create request reaches the handler, and fields that are only carried along (slug, ephemeral flag, certificate fields of a node).
