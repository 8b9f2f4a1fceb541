/** Quarantine over whole runs: which nodes receive nothing. */
module ProtocolQuarantine {
  import opened Records
  import opened Seqs
  import opened Control
  import opened Protocol
  import opened ProtocolSafety
  import Scheduler
  import Vacate
  import Eviction
  import Fsm
  import FsmIndex
  import Quarantine

  // ---------------------------------------------------------------- the history of the quarantine

  /** The marks and heartbeats of the run from step `from` up to step `to`. */
  ghost function Events(t: Trace, from: nat, to: nat): seq<Quarantine.Event>
    requires from <= to <= |t|
  {
    if from == to then [] else Events(t, from, to - 1) + t[to - 1].events
  }

  /** One leadership: no other manager takes over from step `from` up to step `to`.  It starts with
      whatever its manager's quarantine holds from an earlier leadership. */
  ghost predicate OneLeadership(t: Trace, from: nat, to: nat) {
    && from <= to <= |t|
    && forall i :: from <= i < to ==> !t[i].step.ChangeLeader?
  }

  lemma BeatEvents(w: World, n: Node, beat: Control.Beat, keys: seq<string>, commit: Commit)
    requires forall k :: k in keys ==> k in w.fsm.sandboxes.records
    ensures var o := Beating(w.fsm, w.quarantine, n, w.now, beat, keys, commit);
      o.quarantine == Quarantine.Run(w.quarantine, NoteOf(beat.nodeID, o))
  {
    hide Save, Fsm.SandboxesByNode;
    var e := Quarantine.Noted(beat.nodeID);
    assert [e][..0] == [];
  }

  lemma NoEvents(q: Quarantine.Counts)
    ensures Quarantine.Run(q, []) == q
  {
  }

  lemma BeatStepEvents(w: World, step: Step)
    requires step.Beat? || step.LocalBeat?
    ensures ActBeat(w, step).quarantine == Quarantine.Run(w.quarantine, EventsOf(w, step))
  {
    hide Beating, Quarantine.Run;
    NoEvents(w.quarantine);
    if SandboxOrder(w, step.sandboxKeys) {
      OrderMembers(step.sandboxKeys, w.fsm.sandboxes.records.Keys);
      var id := step.beat.nodeID;
      if id in w.fsm.nodes {
        BeatEvents(w, w.fsm.nodes[id], step.beat, step.sandboxKeys, step.commit);
      } else if step.LocalBeat? {
        BeatEvents(w, OwnRecord(id, step.role), step.beat, step.sandboxKeys, step.commit);
      }
    }
  }

  lemma EvictStepEvents(w: World, step: Step)
    requires step.Evict?
    ensures ActOnStore(w, step).quarantine == Quarantine.Run(w.quarantine, EventsOf(w, step))
  {
    hide SaveAll, Decisions, Eviction.Marks, Quarantine.Run;
    NoEvents(w.quarantine);
    if NodeOrder(w, step.nodeKeys) && SandboxOrder(w, step.sandboxKeys) {
      var decisions := Decisions(w.fsm, w.quarantine.Keys, w.now, step.nodeKeys, step.sandboxKeys);
      Eviction.SaveAllMarks(w.fsm, w.quarantine, decisions, Outcomes(step.outcome, |decisions|));
    }
  }

  lemma OtherStepEvents(w: World, step: Step)
    requires !OffStore(step) && !step.Beat? && !step.LocalBeat? && !step.Evict?
    ensures ActOnStore(w, step).quarantine == w.quarantine && EventsOf(w, step) == []
  {
    hide Save, Create, SetDesired, Remove, UpdateSandboxStatus, Fsm.Apply;
  }

  lemma StepEvents(w: World, step: Step)
    requires !step.ChangeLeader?
    ensures Act(w, step).quarantine == Quarantine.Run(w.quarantine, EventsOf(w, step))
  {
    hide ActOnStore, ActBeat, Quarantine.Run;
    NoEvents(w.quarantine);
    if OffStore(step) {
      hide Fsm.SandboxesByNode;
    } else {
      hide ActOffStore;
      if step.Beat? || step.LocalBeat? {
        BeatStepEvents(w, step);
      } else if step.Evict? {
        EvictStepEvents(w, step);
      } else {
        OtherStepEvents(w, step);
      }
    }
  }

  lemma {:induction false} QuarantineIsHistory(t: Trace, from: nat, to: nat)
    requires IsRun(t) && OneLeadership(t, from, to)
    ensures At(t, to).quarantine == Quarantine.Run(At(t, from).quarantine, Events(t, from, to))
  {
    hide Do, Act, EventsOf, Quarantine.Run;
    NoEvents(At(t, from).quarantine);
    if from < to {
      var w, step := At(t, to - 1), t[to - 1].step;
      QuarantineIsHistory(t, from, to - 1);
      RunStep(t, to - 1);
      StepEvents(w, step);
      SameStoreAndQuarantine(w, step);
      Quarantine.RunAppend(At(t, from).quarantine, Events(t, from, to - 1), EventsOf(w, step));
    }
  }

  /** Held off by the history of the leadership from step `from` up to step `to`: marked, in it or
      before it, and fewer than three heartbeats noted since. */
  ghost predicate HeldOff(t: Trace, from: nat, to: nat, id: string)
    requires from <= to <= |t|
  {
    Quarantine.HeldOff(At(t, from).quarantine, Events(t, from, to), id)
  }

  /** Over a whole leadership, whatever marks it begins with, a node is in quarantine exactly when it
      was marked and fewer than three of its heartbeats were noted since. */
  lemma QuarantineMeaning(t: Trace, from: nat, to: nat, id: string)
    requires IsRun(t) && OneLeadership(t, from, to) && id != ""
    ensures id in At(t, to).quarantine <==> HeldOff(t, from, to, id)
  {
    hide At, Events, Quarantine.Run;
    QuarantineIsHistory(t, from, to);
    Quarantine.RunMeaning(At(t, from).quarantine, Events(t, from, to), id);
  }

  // ---------------------------------------------------------------- what a held-off node receives

  lemma {:induction false} UnmarkedStaysOut(q: Quarantine.Counts, events: seq<Quarantine.Event>, id: string)
    requires id !in q && Quarantine.Marked(id) !in events
    ensures id !in Quarantine.Run(q, events)
  {
    if |events| > 0 {
      assert events == events[..|events| - 1] + [events[|events| - 1]];
      UnmarkedStaysOut(q, events[..|events| - 1], id);
    }
  }

  /** A node that is live is not the source of a heartbeat decision. */
  lemma LiveIsNotMarked(w: World, step: Step, target: string)
    requires FsmIndex.Keyed(w.fsm) && step.Evict?
    requires Eviction.LiveTarget(w.fsm.nodes, target, w.now, w.quarantine.Keys)
    ensures target !in Act(w, step).quarantine
  {
    hide SaveAll, Decisions, Eviction.Marks, Eviction.FitsStore;
    if NodeOrder(w, step.nodeKeys) && SandboxOrder(w, step.sandboxKeys) {
      var decisions := Decisions(w.fsm, w.quarantine.Keys, w.now, step.nodeKeys, step.sandboxKeys);
      var commits := Outcomes(step.outcome, |decisions|);
      var marks := Eviction.Marks(w.fsm, decisions, commits);
      Eviction.SaveAllMarks(w.fsm, w.quarantine, decisions, commits);
      Eviction.DecisionsFitStore(w.fsm, w.quarantine.Keys, w.now, step.nodeKeys, step.sandboxKeys);
      if Quarantine.Marked(target) in marks {
        var d :| d in decisions && d.reason.ReasonHeartbeat? && d.source == target;
        SourceIsStale(w, d);
      }
      UnmarkedStaysOut(w.quarantine, marks, target);
    }
  }

  lemma SourceIsStale(w: World, d: Vacate.Decision)
    requires Eviction.FitsStore(w.fsm, w.quarantine.Keys, w.now, d) && d.reason.ReasonHeartbeat?
    ensures d.source in w.fsm.nodes && Scheduler.Silent(w.fsm.nodes[d.source], w.now)
  {
  }

  lemma MoveTargetIsClear(w: World, step: Step, id: string)
    requires Safe(w)
    requires ChangesNode(w.fsm, Act(w, step).fsm, id)
    ensures var target := Act(w, step).fsm.sandboxes.records[id].nodeID;
      step.Evict? && target != "" && target !in w.quarantine && target !in Act(w, step).quarantine
  {
    hide Act, Logged, Safe, AdvancesNodes, StoreOwned;
    SafeStore(w);
    LoggedIsSound(w.fsm);
    StepIsSafe(w, step);
    var target := Act(w, step).fsm.sandboxes.records[id].nodeID;
    assert Eviction.LiveTarget(w.fsm.nodes, target, w.now, w.quarantine.Keys);
    LiveIsNotMarked(w, step, target);
  }

  /** No reassignment goes to a node that is held off, be it by the history before the eviction round
      or by a mark of the very round that makes the reassignment. */
  lemma NoMoveToHeldOffNode(t: Trace, from: nat, k: nat, id: string)
    requires IsRun(t) && OneLeadership(t, from, k + 1) && from <= k
    requires ChangesNode(At(t, k).fsm, At(t, k + 1).fsm, id)
    ensures var target := At(t, k + 1).fsm.sandboxes.records[id].nodeID;
      && !HeldOff(t, from, k, target)
      && !HeldOff(t, from, k + 1, target)
  {
    hide Do, Act, EventsOf, HeldOff, Safe;
    var w, target := At(t, k), At(t, k + 1).fsm.sandboxes.records[id].nodeID;
    RunIsSafe(t, k);
    RunStep(t, k);
    SameStoreAndQuarantine(w, t[k].step);
    MoveTargetIsClear(w, t[k].step, id);
    QuarantineMeaning(t, from, k, target);
    QuarantineMeaning(t, from, k + 1, target);
  }

  lemma CreatedOutsideQuarantine(w: World, step: Step, id: string)
    requires step.CreateSandbox? && step.req.spec.NamedVolumeNames() == []
    requires id !in w.fsm.sandboxes.records && id in Act(w, step).fsm.sandboxes.records
    ensures var nodeID := Act(w, step).fsm.sandboxes.records[id].nodeID;
      nodeID == "" || nodeID !in w.quarantine
  {
    hide Save, Scheduler.SelectNode, ValidSpec, Fsm.ByName, ActOffStore, ActBeat;
    var req, given := step.req, Identifier(step.req, step.generated);
    if given.Some? && NodeOrder(w, step.nodeKeys) && SandboxOrder(w, step.sandboxKeys) {
      OrderMembers(step.nodeKeys, w.fsm.nodes.Keys);
      OrderMembers(step.sandboxKeys, w.fsm.sandboxes.records.Keys);
      var nodes, sandboxes := Listing(step.nodeKeys, w.fsm.nodes), Listing(step.sandboxKeys, w.fsm.sandboxes.records);
      Scheduler.SelectNodeMeaning(nodes, sandboxes, w.now, w.quarantine.Keys);
      var chosen := Scheduler.SelectNode(nodes, sandboxes, w.now, w.quarantine.Keys);
      Eviction.SaveFrame(w.fsm, NewSandbox(req, given.value, chosen, w.now), step.commit);
    }
  }

  /** A sandbox without named volumes is created without a node, or on one that is not held off. */
  lemma NoCreateOnHeldOffNode(t: Trace, from: nat, k: nat, id: string)
    requires IsRun(t) && OneLeadership(t, from, k) && k < |t|
    requires t[k].step.CreateSandbox? && t[k].step.req.spec.NamedVolumeNames() == []
    requires id !in At(t, k).fsm.sandboxes.records && id in At(t, k + 1).fsm.sandboxes.records
    ensures var nodeID := At(t, k + 1).fsm.sandboxes.records[id].nodeID;
      nodeID == "" || !HeldOff(t, from, k, nodeID)
  {
    hide Do, Act, EventsOf, HeldOff, NamedVolumesOf;
    var w, step := At(t, k), t[k].step;
    RunStep(t, k);
    SameStoreAndQuarantine(w, step);
    CreatedOutsideQuarantine(w, step, id);
    var nodeID := At(t, k + 1).fsm.sandboxes.records[id].nodeID;
    if nodeID != "" {
      QuarantineMeaning(t, from, k, nodeID);
    }
  }
}
