/** The inductive invariant of the fencing protocol, over the store, every node's lists and every
    message in flight, and its preservation by every step. */
module ProtocolSafety {
  import opened Records
  import opened Seqs
  import opened Control
  import opened Protocol
  import Scheduler
  import Eviction
  import Fsm
  import FsmIndex

  // ---------------------------------------------------------------- the invariant

  /** The assignment of a sandbox at a generation was made to this node. */
  ghost predicate Owns(owner: map<(string, int), string>, nodeID: string, id: string, generation: int) {
    (id, generation) in owner && owner[(id, generation)] == nodeID
  }

  ghost predicate OwnsAll(owner: map<(string, int), string>, nodeID: string, list: seq<Sandbox>) {
    forall sb :: sb in list ==> Owns(owner, nodeID, sb.id, sb.generation)
  }

  /** Every stored assignment is recorded, and its generation is positive. */
  ghost predicate StoreOwned(w: World) {
    forall id :: id in w.fsm.sandboxes.records ==>
      var sb := w.fsm.sandboxes.records[id];
      id in w.used && sb.generation >= 1 && Owns(w.owner, sb.nodeID, id, sb.generation)
  }

  /** No recorded assignment is newer than the stored one. */
  ghost predicate NoneNewer(w: World) {
    forall k :: k in w.owner ==>
      k.0 in w.used && (k.0 in w.fsm.sandboxes.records ==> k.1 <= w.fsm.sandboxes.records[k.0].generation)
  }

  /** Whatever a node was told, works from or reports is an assignment made to that node. */
  ghost predicate MessagesOwned(w: World) {
    && (forall r :: r in w.replies ==> OwnsAll(w.owner, r.nodeID, r.list))
    && (forall n :: n in w.cached ==> OwnsAll(w.owner, n, w.cached[n]))
    && (forall n :: n in w.working ==> OwnsAll(w.owner, n, w.working[n]))
    && (forall r :: r in w.reports ==> Owns(w.owner, r.sender, r.id, r.generation))
  }

  /** The node a moved sandbox is on has a stamp at most thirty seconds older than the move. */
  ghost predicate StampsFollowMoves(w: World) {
    && (forall id :: id in w.moved ==> id in w.used && w.moved[id] <= w.now)
    && forall id :: id in w.moved && id in w.fsm.sandboxes.records ==>
         var n := w.fsm.sandboxes.records[id].nodeID;
         n in w.fsm.nodes && w.fsm.nodes[n].heartbeatAt.Some? ==>
           w.fsm.nodes[n].heartbeatAt.value >= w.moved[id] - Scheduler.HEARTBEAT_STALE_AFTER
  }

  ghost predicate Safe(w: World) {
    Logged(w.fsm) && StoreOwned(w) && NoneNewer(w) && MessagesOwned(w) && StampsFollowMoves(w)
  }

  // ---------------------------------------------------------------- owners

  /** Recorded assignments are never changed. */
  ghost predicate Extends(owner: map<(string, int), string>, owner': map<(string, int), string>) {
    forall k :: k in owner ==> k in owner' && owner'[k] == owner[k]
  }

  lemma OwnersExtend(w: World, after: World, evicting: bool)
    requires AdvancesSandboxes(w, after, evicting) && StoreOwned(w) && NoneNewer(w)
    ensures Extends(w.owner, Recorded(w, after).owner)
  {
    hide ChangesNode, Eviction.LiveTarget;
    var owner' := Recorded(w, after).owner;
    var t, t' := w.fsm.sandboxes.records, after.fsm.sandboxes.records;
    forall k | k in w.owner
      ensures k in owner' && owner'[k] == w.owner[k]
    {
      if k.0 in t' && t'[k.0].generation == k.1 {
        assert k.0 in t;
        assert Owns(w.owner, t[k.0].nodeID, k.0, t[k.0].generation);
      }
    }
  }

  lemma OwnersCoverStore(w: World, after: World, evicting: bool)
    requires AdvancesSandboxes(w, after, evicting) && StoreOwned(w) && w.used <= after.used
    ensures StoreOwned(Recorded(w, after))
  {
    hide ChangesNode, Eviction.LiveTarget;
    var w' := Recorded(w, after);
    var t, t' := w.fsm.sandboxes.records, after.fsm.sandboxes.records;
    forall id | id in t'
      ensures id in w'.used && t'[id].generation >= 1 && Owns(w'.owner, t'[id].nodeID, id, t'[id].generation)
    {
      assert (id, t'[id].generation) in Owners(t');
      if id in t {
        assert t[id].generation >= 1;
      }
    }
  }

  lemma OwnersStayOld(w: World, after: World, evicting: bool)
    requires AdvancesSandboxes(w, after, evicting) && StoreOwned(w) && NoneNewer(w) && w.used <= after.used
    ensures NoneNewer(Recorded(w, after))
  {
    hide ChangesNode, Eviction.LiveTarget;
    var w' := Recorded(w, after);
    var t, t' := w.fsm.sandboxes.records, after.fsm.sandboxes.records;
    forall k | k in w'.owner
      ensures k.0 in w'.used && (k.0 in t' ==> k.1 <= t'[k.0].generation)
    {
      if k.0 in t' && k.0 in t {
        assert k in w.owner || k in Owners(t');
      } else if k.0 in t' {
        assert k in Owners(t');
      }
    }
  }

  // ---------------------------------------------------------------- messages

  lemma MessagesStayOwned(w: World, w': World)
    requires MessagesOwned(w) && Extends(w.owner, w'.owner)
    requires w'.replies == w.replies && w'.cached == w.cached && w'.working == w.working && w'.reports == w.reports
    ensures MessagesOwned(w')
  {
  }

  /** A list of the node's sandboxes, read from a store, is owned by the node. */
  lemma ListIsOwned(w: World, records: map<string, Sandbox>, keys: seq<string>, nodeID: string)
    requires StoreOwned(w) && FsmIndex.Keyed(w.fsm)
    requires records == w.fsm.sandboxes.records && forall k :: k in keys ==> k in records
    ensures OwnsAll(w.owner, nodeID, Fsm.SandboxesByNode(records, keys, nodeID))
  {
  }

  /** What the store lists for a node. */
  ghost function StoredList(w: World, keys: seq<string>, nodeID: string): seq<Sandbox>
    requires SandboxOrder(w, keys)
  {
    OrderMembers(keys, w.fsm.sandboxes.records.Keys);
    Fsm.SandboxesByNode(w.fsm.sandboxes.records, keys, nodeID)
  }

  /** The answer to a heartbeat, if there is one, carries nothing or what the store lists. */
  ghost predicate AnswersFromStore(w: World, after: World, keys: seq<string>, nodeID: string) {
    && after.cached == w.cached && after.working == w.working && after.reports == w.reports
    && after.fsm.sandboxes == w.fsm.sandboxes
    && (|| after.replies == w.replies
        || after.replies == w.replies + {Reply(nodeID, [])}
        || (SandboxOrder(w, keys) && after.replies == w.replies + {Reply(nodeID, StoredList(w, keys, nodeID))}))
  }

  lemma BeatingAnswers(w: World, n: Node, beat: Control.Beat, keys: seq<string>, commit: Commit)
    requires SandboxOrder(w, keys)
    requires forall k :: k in keys ==> k in w.fsm.sandboxes.records
    ensures var o := Beating(w.fsm, w.quarantine, n, w.now, beat, keys, commit);
      AnswersFromStore(w, Answered(w, beat.nodeID, o), keys, beat.nodeID)
  {
    hide Save, Fsm.SandboxesByNode, IsKeyOrder;
    SaveNodeKeepsSandboxes(w.fsm, Beaten(n, beat, w.now), commit);
  }

  lemma BeatAnswers(w: World, step: Step)
    requires step.Beat? || step.LocalBeat?
    ensures AnswersFromStore(w, ActBeat(w, step), step.sandboxKeys, step.beat.nodeID)
  {
    hide Beating, IsKeyOrder, StoredList;
    if SandboxOrder(w, step.sandboxKeys) {
      OrderMembers(step.sandboxKeys, w.fsm.sandboxes.records.Keys);
      var id := step.beat.nodeID;
      if id in w.fsm.nodes {
        BeatingAnswers(w, w.fsm.nodes[id], step.beat, step.sandboxKeys, step.commit);
      } else if step.LocalBeat? {
        BeatingAnswers(w, OwnRecord(id, step.role), step.beat, step.sandboxKeys, step.commit);
      }
    }
  }

  lemma BeatsKeepMessages(w: World, step: Step)
    requires step.Beat? || step.LocalBeat?
    requires MessagesOwned(w) && FsmIndex.Keyed(Do(w, step).fsm)
    requires Extends(w.owner, Do(w, step).owner) && StoreOwned(Do(w, step))
    ensures MessagesOwned(Do(w, step))
  {
    hide ActBeat, MessagesOwned, StoreOwned, Extends, Owners, ChangesNode, IsKeyOrder, FsmIndex.Keyed;
    hide Fsm.SandboxesByNode;
    var w', base := Do(w, step), w.(owner := Do(w, step).owner);
    var id, keys := step.beat.nodeID, step.sandboxKeys;
    BeatAnswers(w, step);
    MessagesStayOwned(w, base);
    if w'.replies == w.replies {
      SameMessages(base, w');
    } else if w'.replies == w.replies + {Reply(id, [])} {
      NothingOwned(w'.owner, id);
      AnswerArrives(base, w', Reply(id, []));
    } else {
      OrderMembers(keys, w.fsm.sandboxes.records.Keys);
      ListIsOwned(w', w.fsm.sandboxes.records, keys, id);
      AnswerArrives(base, w', Reply(id, StoredList(w, keys, id)));
    }
  }

  lemma NothingOwned(owner: map<(string, int), string>, nodeID: string)
    ensures OwnsAll(owner, nodeID, [])
  {
  }

  lemma SameMessages(w: World, w': World)
    requires MessagesOwned(w) && w'.owner == w.owner
    requires w'.replies == w.replies && w'.cached == w.cached && w'.working == w.working && w'.reports == w.reports
    ensures MessagesOwned(w')
  {
  }

  lemma AnswerArrives(w: World, w': World, reply: Reply)
    requires MessagesOwned(w) && w'.owner == w.owner && OwnsAll(w.owner, reply.nodeID, reply.list)
    requires w'.replies == w.replies + {reply}
    requires w'.cached == w.cached && w'.working == w.working && w'.reports == w.reports
    ensures MessagesOwned(w')
  {
  }

  /** Whether the step moves a message or a list. */
  predicate Moving(step: Step) {
    step.ReceiveReply? || step.Fetch? || step.FetchAsLeader? || step.Send?
  }

  lemma ListsArrive(w: World, nodeID: string, list: seq<Sandbox>)
    requires MessagesOwned(w) && OwnsAll(w.owner, nodeID, list)
    ensures MessagesOwned(w.(cached := w.cached[nodeID := list]))
    ensures MessagesOwned(w.(working := w.working[nodeID := list]))
  {
  }

  lemma ListsAreOwned(w: World, reply: Reply)
    requires MessagesOwned(w)
    ensures reply in w.replies ==> OwnsAll(w.owner, reply.nodeID, reply.list)
    ensures reply.nodeID in w.cached ==> OwnsAll(w.owner, reply.nodeID, w.cached[reply.nodeID])
    ensures OwnsAll(w.owner, reply.nodeID, [])
  {
  }

  lemma ReportsLeave(w: World, report: Report)
    requires MessagesOwned(w) && WorksOn(w, report.sender, report.id, report.generation)
    ensures MessagesOwned(w.(reports := w.reports + {report}))
  {
  }

  lemma MovesKeepMessages(w: World, step: Step)
    requires Moving(step)
    requires MessagesOwned(w) && FsmIndex.Keyed(Do(w, step).fsm)
    requires Extends(w.owner, Do(w, step).owner) && StoreOwned(Do(w, step))
    ensures MessagesOwned(Do(w, step))
  {
    hide MessagesOwned, StoreOwned, OwnsAll, Extends, Fsm.SandboxesByNode, Owners, ChangesNode, FsmIndex.Keyed;
    hide ActOnStore, ActBeat, WorksOn;
    var w' := Do(w, step);
    var base := w.(owner := w'.owner, moved := w'.moved);
    MessagesStayOwned(w, base);
    match step
    case ReceiveReply(reply) =>
      ListsAreOwned(base, reply);
      if reply in w.replies {
        ListsArrive(base, reply.nodeID, reply.list);
      }
    case Fetch(nodeID) =>
      ListsAreOwned(base, Reply(nodeID, []));
      ListsArrive(base, nodeID, if nodeID in w.cached then w.cached[nodeID] else []);
    case FetchAsLeader(nodeID, keys) =>
      if SandboxOrder(w, keys) {
        OrderMembers(keys, w.fsm.sandboxes.records.Keys);
        ListIsOwned(w', w.fsm.sandboxes.records, keys, nodeID);
        ListsArrive(base, nodeID, Fsm.SandboxesByNode(w.fsm.sandboxes.records, keys, nodeID));
      }
    case Send(report) =>
      if WorksOn(w, report.sender, report.id, report.generation) {
        SameWork(w, base, report);
        ReportsLeave(base, report);
      }
  }

  lemma SameWork(w: World, base: World, report: Report)
    requires WorksOn(w, report.sender, report.id, report.generation) && base.working == w.working
    ensures WorksOn(base, report.sender, report.id, report.generation)
  {
  }

  lemma OthersKeepMessages(w: World, step: Step)
    requires !Moving(step) && !step.Beat? && !step.LocalBeat?
    ensures var after := Act(w, step);
      && after.replies == w.replies && after.cached == w.cached
      && after.working == w.working && after.reports == w.reports
  {
    hide ActOnStore;
  }

  lemma MessagesAreKept(w: World, step: Step)
    requires MessagesOwned(w) && Logged(Do(w, step).fsm)
    requires Extends(w.owner, Do(w, step).owner) && StoreOwned(Do(w, step))
    ensures MessagesOwned(Do(w, step))
  {
    hide MessagesOwned, StoreOwned, Extends, Logged, Owners, ChangesNode;
    LoggedIsSound(Do(w, step).fsm);
    hide FsmIndex.Keyed;
    if step.Beat? || step.LocalBeat? {
      BeatsKeepMessages(w, step);
    } else if Moving(step) {
      MovesKeepMessages(w, step);
    } else {
      OthersKeepMessages(w, step);
      hide Act;
      MessagesStayOwned(w, Do(w, step));
    }
  }

  // ---------------------------------------------------------------- stamps

  lemma MovesArePast(w: World, after: World, evicting: bool, id: string)
    requires Advances(w, after, evicting) && StoreOwned(w) && StampsFollowMoves(w)
    requires id in Recorded(w, after).moved
    ensures id in after.used && Recorded(w, after).moved[id] <= after.now
  {
    hide AdvancesSandboxes, AdvancesNodes, Owners, Owns;
    if ChangesNode(w.fsm, after.fsm, id) {
      assert id in w.fsm.sandboxes.records;
    }
  }

  lemma StampsAreKept(w: World, after: World, evicting: bool)
    requires Advances(w, after, evicting) && StoreOwned(w) && StampsFollowMoves(w)
    ensures StampsFollowMoves(Recorded(w, after))
  {
    hide Advances, StoreOwned, Owners, ChangesNode;
    var w' := Recorded(w, after);
    forall id | id in w'.moved
      ensures id in w'.used && w'.moved[id] <= w'.now
    {
      MovesArePast(w, after, evicting, id);
    }
    forall id | id in w'.moved && id in w'.fsm.sandboxes.records
      ensures var n := w'.fsm.sandboxes.records[id].nodeID;
        n in w'.fsm.nodes && w'.fsm.nodes[n].heartbeatAt.Some? ==>
          w'.fsm.nodes[n].heartbeatAt.value >= w'.moved[id] - Scheduler.HEARTBEAT_STALE_AFTER
    {
      StampFollowsMove(w, after, evicting, id);
    }
  }

  lemma StampFollowsMove(w: World, after: World, evicting: bool, id: string)
    requires Advances(w, after, evicting) && StoreOwned(w) && StampsFollowMoves(w)
    requires id in Recorded(w, after).moved && id in after.fsm.sandboxes.records
    ensures var n := after.fsm.sandboxes.records[id].nodeID;
      n in after.fsm.nodes && after.fsm.nodes[n].heartbeatAt.Some? ==>
        after.fsm.nodes[n].heartbeatAt.value >= Recorded(w, after).moved[id] - Scheduler.HEARTBEAT_STALE_AFTER
  {
    hide Owners, Owns, Scheduler.Placeable;
    var t, t' := w.fsm.sandboxes.records, after.fsm.sandboxes.records;
    if ChangesNode(w.fsm, after.fsm, id) {
      assert Moved(t[id], t'[id], w.fsm.nodes, w.now, w.quarantine.Keys);
    } else {
      assert id in w.used && id in t;
    }
  }

  // ---------------------------------------------------------------- every run

  lemma StartIsSafe()
    ensures Safe(START)
  {
    assert Fsm.Exec(Fsm.EMPTY, []).0 == Fsm.EMPTY;
  }

  lemma StepIsSafe(w: World, step: Step)
    requires Safe(w)
    ensures Safe(Do(w, step)) && Extends(w.owner, Do(w, step).owner) && Advances(w, Act(w, step), step.Evict?)
  {
    hide Logged, MessagesOwned, StampsFollowMoves, NoneNewer, Extends, Act, AdvancesSandboxes, AdvancesNodes;
    ActAdvances(w, step);
    hide StoreOwned, Owners, ChangesNode;
    var after := Act(w, step);
    OwnersExtend(w, after, step.Evict?);
    OwnersCoverStore(w, after, step.Evict?);
    OwnersStayOld(w, after, step.Evict?);
    MessagesAreKept(w, step);
    StampsAreKept(w, after, step.Evict?);
  }

  /** The invariant holds throughout every run. */
  lemma {:induction false} RunIsSafe(t: Trace, k: nat)
    requires IsRun(t) && k <= |t|
    ensures Safe(At(t, k))
  {
    hide Safe, Do, EventsOf;
    if k == 0 {
      StartIsSafe();
    } else {
      RunIsSafe(t, k - 1);
      RunStep(t, k - 1);
      StepIsSafe(At(t, k - 1), t[k - 1].step);
    }
  }

  lemma SafeStore(w: World)
    requires Safe(w)
    ensures Logged(w.fsm) && StoreOwned(w)
  {
    hide Logged, StoreOwned, NoneNewer, MessagesOwned, StampsFollowMoves;
  }

  lemma SameStoreAndQuarantine(w: World, step: Step)
    ensures Do(w, step).fsm == Act(w, step).fsm && Do(w, step).quarantine == Act(w, step).quarantine
    ensures Do(w, step).now == Act(w, step).now
  {
    hide Act, Owners, ChangesNode;
  }
}
