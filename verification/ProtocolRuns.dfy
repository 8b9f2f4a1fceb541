/** What holds over whole runs of the fencing protocol, whatever the order of its steps. */
module ProtocolRuns {
  import opened Records
  import opened Seqs
  import opened Control
  import opened Protocol
  import opened ProtocolSafety
  import Scheduler
  import Vacate
  import Eviction
  import Fsm
  import FsmIndex
  import Handlers

  // ---------------------------------------------------------------- two states of one run

  /** What a later state of the same run may differ in: sandboxes are not reborn and not renamed,
      generations do not fall, one generation stays on one node, and nothing recorded is forgotten. */
  ghost predicate Later(w: World, w': World) {
    && w.now <= w'.now && w.used <= w'.used
    && Extends(w.owner, w'.owner)
    && (forall id :: id in w.moved ==> id in w'.moved && w.moved[id] <= w'.moved[id])
    && (forall id :: id in w'.fsm.sandboxes.records && id in w.used ==> id in w.fsm.sandboxes.records)
    && forall id :: id in w'.fsm.sandboxes.records && id in w.fsm.sandboxes.records ==>
         NotOlder(w.fsm.sandboxes.records[id], w'.fsm.sandboxes.records[id])
  }

  ghost predicate NotOlder(a: Sandbox, b: Sandbox) {
    && a.name == b.name
    && a.generation <= b.generation
    && (a.nodeID != b.nodeID ==> a.nodeID != "" && a.generation < b.generation)
  }

  lemma LaterStep(w: World, step: Step)
    requires Safe(w)
    ensures Later(w, Do(w, step)) && Safe(Do(w, step))
  {
    hide Act, AdvancesNodes, Owners, Logged, MessagesOwned, NoneNewer, Owns, Extends, Eviction.LiveTarget;
    StepIsSafe(w, step);
    var w' := Do(w, step);
    forall id | id in w'.fsm.sandboxes.records && id in w.fsm.sandboxes.records
      ensures NotOlder(w.fsm.sandboxes.records[id], w'.fsm.sandboxes.records[id])
    {
      StoredIsOwned(w, id);
    }
  }

  lemma LaterIsTransitive(a: World, b: World, c: World)
    requires a.fsm.sandboxes.records.Keys <= a.used
    requires Later(a, b) && Later(b, c)
    ensures Later(a, c)
  {
    hide Extends;
    assert Extends(a.owner, c.owner) by { ExtendsIsTransitive(a.owner, b.owner, c.owner); }
    forall id | id in c.fsm.sandboxes.records && id in a.fsm.sandboxes.records
      ensures NotOlder(a.fsm.sandboxes.records[id], c.fsm.sandboxes.records[id])
    {
      assert id in b.fsm.sandboxes.records;
    }
  }

  lemma ExtendsIsTransitive(
      a: map<(string, int), string>, b: map<(string, int), string>, c: map<(string, int), string>)
    requires Extends(a, b) && Extends(b, c)
    ensures Extends(a, c)
  {
  }

  lemma Now(w: World)
    requires Safe(w)
    ensures Later(w, w) && w.fsm.sandboxes.records.Keys <= w.used
  {
    hide Logged, MessagesOwned, NoneNewer, StampsFollowMoves;
  }

  lemma {:induction false} RunGoesOn(t: Trace, i: nat, j: nat)
    requires IsRun(t) && i <= j <= |t|
    ensures Later(At(t, i), At(t, j)) && Safe(At(t, i)) && Safe(At(t, j))
  {
    hide Safe, Later, Do, At, EventsOf;
    RunIsSafe(t, i);
    Now(At(t, i));
    if i < j {
      RunGoesOn(t, i, j - 1);
      RunStep(t, j - 1);
      LaterStep(At(t, j - 1), t[j - 1].step);
      LaterIsTransitive(At(t, i), At(t, j - 1), At(t, j));
    }
  }

  // ---------------------------------------------------------------- fencing

  /** The report comes from the current assignment of its sandbox. */
  ghost predicate IsCurrent(fsm: Fsm.State, report: Report) {
    && report.id in fsm.sandboxes.records
    && fsm.sandboxes.records[report.id].generation == report.generation
    && fsm.sandboxes.records[report.id].nodeID == report.sender
  }

  /** Fencing.  At every point of every run, a report in flight, however late, reordered, repeated or
      forwarded, changes the store only if it comes from the current assignment of its sandbox.  A
      report that does, presented by its sender or a manager and committed, is accepted, and changes
      nothing but the status and the update time. */
  lemma OnlyCurrentReportsAreAccepted(t: Trace, k: nat, report: Report, peer: Certificate, commit: Commit)
    requires IsRun(t) && k <= |t|
    requires report in At(t, k).reports
    ensures
      var w := At(t, k);
      var (fsm, failure) := UpdateSandboxStatus(
        w.fsm, w.now, peer, report.id, report.generation, report.status, commit);
      && (failure.None? || fsm != w.fsm ==> IsCurrent(w.fsm, report))
      && (IsCurrent(w.fsm, report) && (peer.name == report.sender || peer.manager) && commit.Confirmed? ==>
            && failure.None?
            && report.id in fsm.sandboxes.records
            && Handlers.Carries(
                 w.fsm.sandboxes.records[report.id], fsm.sandboxes.records[report.id], report.status, w.now)
            && fsm.sandboxes.records - {report.id} == w.fsm.sandboxes.records - {report.id})
  {
    hide At, Save, FsmIndex.Keyed, FsmIndex.NamesClaimed, Eviction.AllFiled, Logged, Handlers.Carries;
    hide UpdateSandboxStatus;
    RunIsSafe(t, k);
    var w := At(t, k);
    hide MessagesOwned, StoreOwned, NoneNewer, StampsFollowMoves;
    LoggedIsSound(w.fsm);
    ReportsAreOwned(w, report);
    Handlers.StatusMeaning(w.fsm, w.now, peer, report.id, report.generation, report.status, commit);
    if report.id in w.fsm.sandboxes.records {
      StoredIsOwned(w, report.id);
      Handlers.OutsiderMeaning(peer, report.sender);
    }
  }

  lemma ReportsAreOwned(w: World, report: Report)
    requires MessagesOwned(w) && report in w.reports
    ensures Owns(w.owner, report.sender, report.id, report.generation)
  {
  }

  lemma StoredIsOwned(w: World, id: string)
    requires StoreOwned(w) && id in w.fsm.sandboxes.records
    ensures var sb := w.fsm.sandboxes.records[id];
      id in w.used && sb.generation >= 1 && Owns(w.owner, sb.nodeID, id, sb.generation)
  {
  }

  /** Generations do not fall over a run, and an identifier and a generation name one node for ever: at
      whatever two points of a run a sandbox is stored with the same generation, it is on the same
      node. */
  lemma OneNodePerGeneration(t: Trace, i: nat, j: nat, id: string)
    requires IsRun(t) && i <= j <= |t|
    requires id in At(t, i).fsm.sandboxes.records && id in At(t, j).fsm.sandboxes.records
    ensures var a, b := At(t, i).fsm.sandboxes.records[id], At(t, j).fsm.sandboxes.records[id];
      a.generation <= b.generation && (a.nodeID != b.nodeID ==> a.generation < b.generation)
  {
    hide At, Logged, MessagesOwned, NoneNewer, StampsFollowMoves, Extends;
    RunGoesOn(t, i, j);
  }

  /** Rejection is final: a report that is not current when it is in flight, because its sandbox is
      gone or has another generation, is rejected at that and every later point of the run, by
      whomever it is presented. */
  lemma RejectionIsFinal(t: Trace, i: nat, j: nat, report: Report, peer: Certificate, commit: Commit)
    requires IsRun(t) && i <= j <= |t|
    requires report in At(t, i).reports
    requires !IsCurrent(At(t, i).fsm, report)
    ensures var w := At(t, j);
      var (fsm, failure) := UpdateSandboxStatus(
        w.fsm, w.now, peer, report.id, report.generation, report.status, commit);
      fsm == w.fsm && failure.Some?
  {
    hide At, Save, Logged, StampsFollowMoves;
    RunGoesOn(t, i, j);
    var w, w' := At(t, i), At(t, j);
    ReportsAreOwned(w, report);
    hide MessagesOwned;
    assert (report.id, report.generation) in w.owner;
    if report.id in w'.fsm.sandboxes.records {
      assert report.id in w.fsm.sandboxes.records;
      StoredIsOwned(w, report.id);
      StoredIsOwned(w', report.id);
    }
  }

  // ---------------------------------------------------------------- generations

  /** A sandbox changes its node, or its generation, only in an eviction round; both change together,
      and generation `g` becomes `max(g, 1) + 1`.  A sandbox that is gone never comes back. */
  lemma OnlyEvictionMoves(t: Trace, i: nat, id: string)
    requires IsRun(t) && i < |t|
    requires id in At(t, i).fsm.sandboxes.records && id in At(t, i + 1).fsm.sandboxes.records
    ensures
      var a, b := At(t, i).fsm.sandboxes.records[id], At(t, i + 1).fsm.sandboxes.records[id];
      && (a.nodeID != b.nodeID <==> a.generation != b.generation)
      && (a.nodeID != b.nodeID ==>
            t[i].step.Evict? && b.generation == (if a.generation < 1 then 1 else a.generation) + 1)
  {
    hide At, Act, Logged, MessagesOwned, NoneNewer, StampsFollowMoves, Extends, AdvancesNodes, Eviction.LiveTarget;
    RunIsSafe(t, i);
    RunStep(t, i);
    StepIsSafe(At(t, i), t[i].step);
  }

  lemma GoneForGood(t: Trace, i: nat, j: nat, k: nat, id: string)
    requires IsRun(t) && i <= j <= k <= |t|
    requires id in At(t, i).fsm.sandboxes.records && id !in At(t, j).fsm.sandboxes.records
    ensures id !in At(t, k).fsm.sandboxes.records
  {
    hide At, Logged, MessagesOwned, NoneNewer, StampsFollowMoves, Extends;
    RunGoesOn(t, i, j);
    RunGoesOn(t, j, k);
    StoredIsOwned(At(t, i), id);
  }

  // ---------------------------------------------------------------- minimum residence

  /** What the planner classifies as heartbeat-stale, read off the store. */
  lemma HeartbeatMeansStale(w: World, nodeID: string, nodeKeys: seq<string>)
    requires FsmIndex.Keyed(w.fsm) && NodeOrder(w, nodeKeys)
    requires forall k :: k in nodeKeys ==> k in w.fsm.nodes
    ensures Vacate.ClassifyVacate(Vacate.ByNode(Listing(nodeKeys, w.fsm.nodes)), nodeID, w.now)
              == Some(Vacate.ReasonHeartbeat)
      <==> nodeID in w.fsm.nodes && Scheduler.Silent(w.fsm.nodes[nodeID], w.now)
  {
    Eviction.ListingIsUnique(nodeKeys, w.fsm.nodes, (n: Node) => n.id);
    Vacate.ByNodeMeaning(Listing(nodeKeys, w.fsm.nodes));
    if nodeID in w.fsm.nodes {
      assert w.fsm.nodes[nodeID] in Listing(nodeKeys, w.fsm.nodes);
    }
  }

  /** The sandbox is stored on a node whose heartbeat is old enough to evacuate it. */
  ghost predicate OnStaleNode(w: World, id: string) {
    && id in w.fsm.sandboxes.records
    && var n := w.fsm.sandboxes.records[id].nodeID;
       n in w.fsm.nodes && Scheduler.Silent(w.fsm.nodes[n], w.now)
  }

  lemma StaleOnlyLater(w: World, id: string)
    requires StampsFollowMoves(w) && id in w.moved && OnStaleNode(w, id)
    ensures w.now - w.moved[id] > Scheduler.HEARTBEAT_EVICT_AFTER - Scheduler.HEARTBEAT_STALE_AFTER
  {
  }

  lemma MoveIsRecorded(w: World, step: Step, id: string)
    requires ChangesNode(w.fsm, Do(w, step).fsm, id)
    ensures id in Do(w, step).moved && Do(w, step).moved[id] == w.now
  {
    hide Act, Owners;
  }

  /** Minimum residence.  A sandbox that was moved does not sit on a heartbeat-stale node until more
      than thirty seconds after the move, whatever happens in between. */
  lemma MinimumResidence(t: Trace, i: nat, j: nat, id: string)
    requires IsRun(t) && i < j <= |t|
    requires ChangesNode(At(t, i).fsm, At(t, i + 1).fsm, id)
    requires OnStaleNode(At(t, j), id)
    ensures At(t, j).now - At(t, i).now
          > Scheduler.HEARTBEAT_EVICT_AFTER - Scheduler.HEARTBEAT_STALE_AFTER == 30 * SECOND
  {
    hide At, Do, EventsOf, Logged, MessagesOwned, NoneNewer, StoreOwned, StampsFollowMoves, Extends, ChangesNode;
    hide Scheduler.Silent;
    RunStep(t, i);
    MoveIsRecorded(At(t, i), t[i].step, id);
    RunGoesOn(t, i + 1, j);
    StaleOnlyLater(At(t, j), id);
  }

  /** The same of decisions: one taken because of the heartbeat, in an eviction round after a move of the
      same sandbox, comes more than thirty seconds after that move. */
  lemma HeartbeatDecisionsComeLater(
      t: Trace, i: nat, j: nat, id: string, nodeKeys: seq<string>, sandboxKeys: seq<string>)
    requires IsRun(t) && i < j <= |t|
    requires ChangesNode(At(t, i).fsm, At(t, i + 1).fsm, id)
    requires NodeOrder(At(t, j), nodeKeys) && SandboxOrder(At(t, j), sandboxKeys)
    ensures
      var w := At(t, j);
      forall d :: d in Decisions(w.fsm, w.quarantine.Keys, w.now, nodeKeys, sandboxKeys) ==>
        d.sandbox.id == id && d.reason.ReasonHeartbeat? ==> w.now - At(t, i).now > 30 * SECOND
  {
    hide At, Decisions, Safe, ChangesNode, Eviction.LiveTarget, Eviction.AllFiled, FsmIndex.NamesClaimed;
    var w := At(t, j);
    RunIsSafe(t, j);
    SafeStore(w);
    LoggedIsSound(w.fsm);
    Eviction.DecisionsFitStore(w.fsm, w.quarantine.Keys, w.now, nodeKeys, sandboxKeys);
    forall d | d in Decisions(w.fsm, w.quarantine.Keys, w.now, nodeKeys, sandboxKeys)
      ensures d.sandbox.id == id && d.reason.ReasonHeartbeat? ==> w.now - At(t, i).now > 30 * SECOND
    {
      if d.sandbox.id == id && d.reason.ReasonHeartbeat? {
        assert Eviction.FitsStore(w.fsm, w.quarantine.Keys, w.now, d);
        MinimumResidence(t, i, j, id);
      }
    }
  }
}
