/** What single steps do at any point of a run, read off the states before and after them. */
module ProtocolSteps {
  import opened Records
  import opened Seqs
  import opened Control
  import opened Handlers
  import opened Protocol
  import opened ProtocolSafety
  import opened ProtocolRuns
  import Scheduler
  import Vacate
  import Eviction
  import Fsm
  import FsmIndex
  import Quarantine

  /** What every lemma here starts from. */
  lemma StepSound(t: Trace, k: nat)
    requires IsRun(t) && k < |t|
    ensures Safe(At(t, k)) && Safe(At(t, k + 1))
    ensures var w, after, w' := At(t, k), Act(At(t, k), t[k].step), At(t, k + 1);
      w' == after.(owner := w'.owner, moved := w'.moved)
    ensures var fsm := At(t, k).fsm;
      FsmIndex.Keyed(fsm) && FsmIndex.NamesClaimed(fsm.sandboxes) && Eviction.AllFiled(fsm)
  {
    hide Act, Safe, At, ChangesNode, Owners;
    RunStep(t, k);
    RunIsSafe(t, k);
    RunIsSafe(t, k + 1);
    SafeStore(At(t, k));
    LoggedIsSound(At(t, k).fsm);
  }

  // ---------------------------------------------------------------- status reports

  /** A delivered report changes nothing, or it is current and its sandbox then carries the reported
      phase, message, local name and times, whatever the store held before; no other record changes.
      A current report that its sender or a manager presents does so once it is committed. */
  lemma DeliveredReport(t: Trace, k: nat)
    requires IsRun(t) && k < |t| && t[k].step.Deliver?
    ensures
      var w, w', step := At(t, k), At(t, k + 1), t[k].step;
      var report := step.report;
      && (w'.fsm == w.fsm
          || (&& IsCurrent(w.fsm, report) && report.id in w'.fsm.sandboxes.records
              && Carries(w.fsm.sandboxes.records[report.id], w'.fsm.sandboxes.records[report.id], report.status, w.now)
              && w'.fsm.sandboxes.records - {report.id} == w.fsm.sandboxes.records - {report.id}))
      && (report in w.reports && IsCurrent(w.fsm, report)
          && (step.peer.name == report.sender || step.peer.manager) && Happens(step.commit) ==>
            && report.id in w'.fsm.sandboxes.records
            && Carries(w.fsm.sandboxes.records[report.id], w'.fsm.sandboxes.records[report.id], report.status, w.now))
  {
    hide At, Safe, UpdateSandboxStatus, Carries, FsmIndex.Keyed, FsmIndex.NamesClaimed, Eviction.AllFiled, ActOffStore;
    hide ActBeat;
    StepSound(t, k);
    var w, step := At(t, k), t[k].step;
    var r := step.report;
    StatusMeaning(w.fsm, w.now, step.peer, r.id, r.generation, r.status, step.commit);
    if r in w.reports {
      OnlyCurrentReportsAreAccepted(t, k, r, step.peer, step.commit);
    }
  }

  // ---------------------------------------------------------------- starting, stopping, removing

  /** Once committed, a start makes a stored sandbox wanted and a stop makes it unwanted; nothing else
      about it changes but the update time, and nothing about any other. */
  lemma WishIsStored(t: Trace, k: nat, id: string, commit: Commit)
    requires IsRun(t) && k < |t| && id in At(t, k).fsm.sandboxes.records && Happens(commit)
    ensures
      var w, records := At(t, k), At(t, k + 1).fsm.sandboxes.records;
      var sb := w.fsm.sandboxes.records[id];
      && (t[k].step == Start(id, commit) ==>
            records == w.fsm.sandboxes.records[id := sb.(desired := DesiredRunning, updatedAt := w.now)])
      && (t[k].step == Stop(id, commit) ==>
            records == w.fsm.sandboxes.records[id := sb.(desired := DesiredStopped, updatedAt := w.now)])
  {
    hide At, Safe, SetDesired, FsmIndex.Keyed, FsmIndex.NamesClaimed, Eviction.AllFiled, ActOffStore, ActBeat;
    StepSound(t, k);
    var w := At(t, k);
    SetDesiredMeaning(w.fsm, w.now, id, DesiredRunning, commit);
    SetDesiredMeaning(w.fsm, w.now, id, DesiredStopped, commit);
  }

  /** Once a removal is committed the sandbox is not stored, then or at any later point of the run, and
      all others are as before. */
  lemma RemovedForGood(t: Trace, k: nat, j: nat, id: string, commit: Commit)
    requires IsRun(t) && k < j <= |t| && t[k].step == RemoveSandbox(id, commit) && Happens(commit)
    requires id in At(t, k).fsm.sandboxes.records
    ensures At(t, k + 1).fsm.sandboxes.records == At(t, k).fsm.sandboxes.records - {id}
    ensures id !in At(t, j).fsm.sandboxes.records
  {
    hide At, Safe, Remove, FsmIndex.Keyed, FsmIndex.ExactNames, ActOffStore, ActBeat;
    StepSound(t, k);
    RemoveMeaning(At(t, k).fsm, id, commit);
    GoneForGood(t, k, k + 1, j, id);
  }

  // ---------------------------------------------------------------- creating

  /** A sandbox enters the store only by a create request: under its identifier or the generated one, as
      the request describes it, and, if it asks for no named volume, on the roomiest node that the
      quarantine of that moment lets through. */
  lemma OnlyCreateAdds(t: Trace, k: nat, id: string)
    requires IsRun(t) && k < |t|
    requires id !in At(t, k).fsm.sandboxes.records && id in At(t, k + 1).fsm.sandboxes.records
    ensures
      var w, sb, step := At(t, k), At(t, k + 1).fsm.sandboxes.records[id], t[k].step;
      && step.CreateSandbox? && sb.id == id
      && (if step.req.id != "" then id == step.req.id else step.generated == Some(id))
      && IsNew(sb, step.req, w.now)
      && ((forall m :: m in step.req.spec.mounts ==> !AsksForVolume(m)) ==>
            WellPlaced(w.fsm, w.quarantine.Keys, w.now, sb.nodeID))
  {
    hide At, Safe, Act, IsNew, WellPlaced, AsksForVolume, FsmIndex.Keyed, FsmIndex.NamesClaimed, Eviction.AllFiled;
    StepSound(t, k);
    var w, step := At(t, k), t[k].step;
    SafeStore(w);
    UsedInCreate(w, step, id);
    CreateStepAdds(w, step, id);
  }

  lemma UsedInCreate(w: World, step: Step, id: string)
    requires Logged(w.fsm) && StoreOwned(w)
    requires id !in w.fsm.sandboxes.records && id in Act(w, step).fsm.sandboxes.records
    ensures step.CreateSandbox?
  {
    hide Act, Logged, AdvancesNodes, Moved;
    ActAdvances(w, step);
    OnlyCreateUses(w, step);
  }

  lemma OnlyCreateUses(w: World, step: Step)
    ensures !step.CreateSandbox? ==> Act(w, step).used == w.used
  {
    hide Heartbeat, LocalHeartbeat, SetDesired, Remove, UpdateSandboxStatus, SaveAll, Decisions, Save, Fsm.Apply;
    hide Fsm.SandboxesByNode;
  }

  lemma CreateStepAdds(w: World, step: Step, id: string)
    requires FsmIndex.Keyed(w.fsm) && step.CreateSandbox?
    requires id !in w.fsm.sandboxes.records && id in Act(w, step).fsm.sandboxes.records
    ensures
      var sb := Act(w, step).fsm.sandboxes.records[id];
      && sb.id == id
      && (if step.req.id != "" then id == step.req.id else step.generated == Some(id))
      && IsNew(sb, step.req, w.now)
      && ((forall m :: m in step.req.spec.mounts ==> !AsksForVolume(m)) ==>
            WellPlaced(w.fsm, w.quarantine.Keys, w.now, sb.nodeID))
  {
    hide Create, IsNew, WellPlaced, AsksForVolume, ActOffStore, ActBeat, FsmIndex.Keyed;
    CreateAdds(w.fsm, w.quarantine.Keys, w.now, step.req, step.generated, step.nodeKeys, step.sandboxKeys,
               step.commit, id);
  }

  // ---------------------------------------------------------------- heartbeats and lists

  /** A confirmed heartbeat of a stored node, from the node or a manager, stamps the node with the present
      and changes no other node and no sandbox; and an answer is on its way that lists exactly the
      stored sandboxes of the node. */
  lemma HeartbeatIsAnswered(t: Trace, k: nat, peer: Certificate, beat: Control.Beat, keys: seq<string>)
    requires IsRun(t) && k < |t| && t[k].step == Step.Beat(peer, beat, keys, Confirmed)
    requires SandboxOrder(At(t, k), keys) && beat.nodeID in At(t, k).fsm.nodes && !Outsider(peer, beat.nodeID)
    ensures
      var w, w' := At(t, k), At(t, k + 1);
      && beat.nodeID in w'.fsm.nodes && HasBeaten(w.fsm.nodes[beat.nodeID], w'.fsm.nodes[beat.nodeID], beat, w.now)
      && w'.fsm.nodes - {beat.nodeID} == w.fsm.nodes - {beat.nodeID} && w'.fsm.sandboxes == w.fsm.sandboxes
      && exists list :: Reply(beat.nodeID, list) in w'.replies && ListsNode(w.fsm, list, beat.nodeID)
  {
    hide At, Safe, Heartbeat, FsmIndex.NamesClaimed, Eviction.AllFiled, ActOffStore, HasBeaten, ListsNode;
    StepSound(t, k);
    var w := At(t, k);
    NamedNode(w.fsm, beat.nodeID);
    hide FsmIndex.Keyed;
    HeartbeatMeaning(w.fsm, w.quarantine, w.now, peer, beat, keys, Confirmed);
    var o := Heartbeat(w.fsm, w.quarantine, w.now, peer, beat, keys, Confirmed);
    assert Reply(beat.nodeID, o.result.value.list) in At(t, k + 1).replies;
  }

  lemma NamedNode(fsm: Fsm.State, id: string)
    requires FsmIndex.Keyed(fsm) && id in fsm.nodes
    ensures id != ""
  {
  }

  /** A heartbeat of a node whose record is gone is answered with an empty list. */
  lemma RemovedNodeIsTold(t: Trace, k: nat, peer: Certificate, beat: Control.Beat, keys: seq<string>, commit: Commit)
    requires IsRun(t) && k < |t| && t[k].step == Step.Beat(peer, beat, keys, commit)
    requires SandboxOrder(At(t, k), keys) && beat.nodeID !in At(t, k).fsm.nodes
    requires beat.nodeID != "" && !Outsider(peer, beat.nodeID)
    ensures Reply(beat.nodeID, []) in At(t, k + 1).replies && At(t, k + 1).fsm == At(t, k).fsm
  {
    hide At, Safe, Heartbeat, FsmIndex.NamesClaimed, Eviction.AllFiled, ActOffStore, FsmIndex.Keyed;
    StepSound(t, k);
    var w := At(t, k);
    HeartbeatMeaning(w.fsm, w.quarantine, w.now, peer, beat, keys, commit);
  }

  /** What moves a list: an answer that is on its way becomes the node's cache; the agent of a node works
      from the cache, or on the leader from exactly the node's stored sandboxes; and it may report on
      what it works from.  None of it touches the store or another node. */
  lemma ListsMove(t: Trace, k: nat)
    requires IsRun(t) && k < |t|
    ensures
      var w, w', step := At(t, k), At(t, k + 1), t[k].step;
      && (step.ReceiveReply? && step.reply in w.replies ==>
            w'.cached == w.cached[step.reply.nodeID := step.reply.list] && w'.working == w.working)
      && (step.Fetch? && step.nodeID in w.cached ==>
            w'.working == w.working[step.nodeID := w.cached[step.nodeID]] && w'.cached == w.cached)
      && (step.Fetch? && step.nodeID !in w.cached ==> w'.working == w.working[step.nodeID := []])
      && (step.FetchAsLeader? && SandboxOrder(w, step.sandboxKeys) ==>
            && step.nodeID in w'.working && ListsNode(w.fsm, w'.working[step.nodeID], step.nodeID)
            && w'.working - {step.nodeID} == w.working - {step.nodeID} && w'.cached == w.cached)
      && (step.Send? && WorksOn(w, step.report.sender, step.report.id, step.report.generation) ==>
            step.report in w'.reports)
      && (OffStore(step) ==> w'.fsm == w.fsm)
  {
    hide At, Safe, Fsm.SandboxesByNode, FsmIndex.NamesClaimed, Eviction.AllFiled, FsmIndex.Keyed;
    hide ActOnStore, ActBeat, WorksOn, ListsNode;
    StepSound(t, k);
    var w, step := At(t, k), t[k].step;
    if step.FetchAsLeader? && SandboxOrder(w, step.sandboxKeys) {
      ListingNode(w.fsm, step.sandboxKeys, step.nodeID);
    }
  }

  /** The clock moves in ticks alone. */
  lemma OnlyTicksMoveTheClock(t: Trace, k: nat)
    requires IsRun(t) && k < |t|
    ensures At(t, k + 1).now == At(t, k).now + if t[k].step.Tick? then t[k].step.dt else 0
  {
    hide At, Safe, Heartbeat, LocalHeartbeat, ActOnStore, Fsm.SandboxesByNode;
    hide FsmIndex.Keyed, FsmIndex.NamesClaimed, Eviction.AllFiled;
    StepSound(t, k);
  }

  // ---------------------------------------------------------------- nodes

  lemma {:induction false} SavedDecisionsKeepNodes(
      fsm: Fsm.State, quarantine: Quarantine.Counts, decisions: seq<Vacate.Decision>, commits: seq<Commit>)
    requires |commits| == |decisions|
    ensures SaveAll(fsm, quarantine, decisions, commits).0.nodes == fsm.nodes
  {
    hide Save;
    if |decisions| > 0 {
      var last := |decisions| - 1;
      SavedDecisionsKeepNodes(fsm, quarantine, decisions[..last], commits[..last]);
      var mid := SaveAll(fsm, quarantine, decisions[..last], commits[..last]).0;
      Eviction.SaveFrame(mid, decisions[last].sandbox, commits[last]);
    }
  }

  lemma BeatsKeepNodes(w: World, step: Step, id: string)
    requires step.Beat? || step.LocalBeat?
    requires id in w.fsm.nodes
    ensures id in Act(w, step).fsm.nodes
  {
    hide Fsm.SandboxesByNode;
  }

  /** Commands about other things leave the nodes alone. */
  lemma SavesKeepNodes(fsm: Fsm.State)
    ensures forall cmd: Fsm.Command, commit {:trigger Save(fsm, cmd, commit)} :: !cmd.SaveNode? && !cmd.DeleteNode? ==>
      Save(fsm, cmd, commit).0.nodes == fsm.nodes
  {
    forall cmd: Fsm.Command, commit {:trigger Save(fsm, cmd, commit)} | !cmd.SaveNode? && !cmd.DeleteNode?
      ensures Save(fsm, cmd, commit).0.nodes == fsm.nodes
    {
      FsmIndex.ApplyByTable(fsm, cmd);
      hide Fsm.Apply;
    }
  }

  lemma RoundsKeepNodes(w: World, step: Step)
    requires step.Evict?
    ensures Act(w, step).fsm.nodes == w.fsm.nodes
  {
    hide Decisions, SaveAll, IsKeyOrder, ActBeat, ActOffStore;
    if NodeOrder(w, step.nodeKeys) && SandboxOrder(w, step.sandboxKeys) {
      var decisions := Decisions(w.fsm, w.quarantine.Keys, w.now, step.nodeKeys, step.sandboxKeys);
      SavedDecisionsKeepNodes(w.fsm, w.quarantine, decisions, Outcomes(step.outcome, |decisions|));
    }
  }

  lemma AdminKeepsNodes(w: World, step: Step)
    requires step.Admin?
    ensures Act(w, step).fsm.nodes == w.fsm.nodes
  {
    FsmIndex.ApplyByTable(w.fsm, step.cmd);
    hide Fsm.Apply, ActBeat, ActOffStore;
  }

  lemma OtherStepsKeepNodes(w: World, step: Step)
    requires !step.Beat? && !step.LocalBeat? && !step.UpdateNode? && !step.DeleteNode?
    ensures Act(w, step).fsm.nodes == w.fsm.nodes
  {
    if step.Evict? {
      RoundsKeepNodes(w, step);
    } else if step.Admin? {
      AdminKeepsNodes(w, step);
    } else {
      hide Save, Decisions, SaveAll, ActBeat, Fsm.Apply, IsKeyOrder, NewSandbox, Reported, PinNode, WorksOn;
      hide Scheduler.SelectNode, ValidSpec, Fsm.ByName, MaySpeakFor, NamedVolumesOf, Fsm.SandboxesByNode;
      SavesKeepNodes(w.fsm);
    }
  }

  lemma NodesStay(w: World, step: Step, id: string)
    requires id != "" && id in w.fsm.nodes
    ensures
      var fsm' := Act(w, step).fsm;
      && (id !in fsm'.nodes ==> step.DeleteNode? && step.id == id && Happens(step.commit))
      && (step.DeleteNode? && step.id == id && Happens(step.commit) ==>
            fsm' == w.fsm.(nodes := w.fsm.nodes - {id}))
  {
    if step.Beat? || step.LocalBeat? {
      hide Act;
      BeatsKeepNodes(w, step, id);
    } else if step.UpdateNode? || step.DeleteNode? {
      hide ActOffStore, ActBeat;
    } else {
      hide Act;
      OtherStepsKeepNodes(w, step);
    }
  }

  /** A node leaves the store only by being deleted, and a committed deletion removes exactly that node. */
  lemma OnlyDeletionRemovesNodes(t: Trace, k: nat, id: string)
    requires IsRun(t) && k < |t| && id in At(t, k).fsm.nodes
    ensures
      var w, w', step := At(t, k), At(t, k + 1), t[k].step;
      && (id !in w'.fsm.nodes ==> step.DeleteNode? && step.id == id && Happens(step.commit))
      && (step.DeleteNode? && step.id == id && Happens(step.commit) ==>
            w'.fsm == w.fsm.(nodes := w.fsm.nodes - {id}))
  {
    hide At, Safe, FsmIndex.NamesClaimed, Eviction.AllFiled, Act;
    StepSound(t, k);
    NamedNode(At(t, k).fsm, id);
    hide FsmIndex.Keyed;
    NodesStay(At(t, k), t[k].step, id);
  }

  /** A committed update of a node stores the record it brings, but keeps the heartbeat stamp of the record
      it replaces; a joining node has none. */
  lemma UpdatedNode(t: Trace, k: nat, n: Node, commit: Commit)
    requires IsRun(t) && k < |t| && t[k].step == UpdateNode(n, commit) && Happens(commit) && n.id != ""
    ensures
      var w, w' := At(t, k), At(t, k + 1);
      var stamp := if n.id in w.fsm.nodes then w.fsm.nodes[n.id].heartbeatAt else None;
      w'.fsm == w.fsm.(nodes := w.fsm.nodes[n.id := n.(heartbeatAt := stamp)])
  {
    hide At, Safe, FsmIndex.Keyed, FsmIndex.NamesClaimed, Eviction.AllFiled, ActOffStore, ActBeat;
    StepSound(t, k);
  }

  /** The leader's own heartbeat, once confirmed, files its node or stamps it, and is answered like any
      other. */
  lemma OwnHeartbeatIsAnswered(t: Trace, k: nat, role: Role, beat: Control.Beat, keys: seq<string>)
    requires IsRun(t) && k < |t| && t[k].step == LocalBeat(role, beat, keys, Confirmed)
    requires SandboxOrder(At(t, k), keys) && beat.nodeID != ""
    ensures
      var w, w' := At(t, k), At(t, k + 1);
      && beat.nodeID in w'.fsm.nodes && w'.fsm.nodes[beat.nodeID].heartbeatAt == Some(w.now)
      && w'.fsm.nodes - {beat.nodeID} == w.fsm.nodes - {beat.nodeID} && w'.fsm.sandboxes == w.fsm.sandboxes
      && exists list :: Reply(beat.nodeID, list) in w'.replies && ListsNode(w.fsm, list, beat.nodeID)
  {
    hide At, Safe, LocalHeartbeat, FsmIndex.Keyed, FsmIndex.NamesClaimed, Eviction.AllFiled, ActOffStore, ListsNode;
    StepSound(t, k);
    var w := At(t, k);
    LocalHeartbeatMeaning(w.fsm, w.quarantine, w.now, role, beat, keys, Confirmed);
    var o := LocalHeartbeat(w.fsm, w.quarantine, w.now, role, beat, keys, Confirmed);
    assert Reply(beat.nodeID, o.result.value.list) in At(t, k + 1).replies;
  }

  /** A change of the leader brings another quarantine and nothing else; a command of the administration is
      applied to the store and touches neither sandboxes nor nodes. */
  lemma OtherSteps(t: Trace, k: nat)
    requires IsRun(t) && k < |t|
    ensures
      var w, w', step := At(t, k), At(t, k + 1), t[k].step;
      && (step.ChangeLeader? ==> w'.quarantine == step.quarantine && w'.fsm == w.fsm)
      && (step.Admin? && IsAdmin(step.cmd) ==>
            && w'.fsm == Fsm.Apply(w.fsm, step.cmd).0
            && w'.fsm.sandboxes == w.fsm.sandboxes && w'.fsm.nodes == w.fsm.nodes)
  {
    hide At, Safe, FsmIndex.Keyed, FsmIndex.NamesClaimed, Eviction.AllFiled, ActBeat;
    StepSound(t, k);
    if t[k].step.Admin? {
      FsmIndex.ApplyByTable(At(t, k).fsm, t[k].step.cmd);
    }
    hide Fsm.Apply;
  }
}
