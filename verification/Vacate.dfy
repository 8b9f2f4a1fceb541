/** The evacuation planner, as functions on values, and what it guarantees. */
module Vacate {
  import opened Records
  import opened Scheduler

  datatype Reason = ReasonHeartbeat | ReasonDrain | ReasonGone

  /** One planned change.  `sandbox` is the record to save; a failed mount stays on `source`. */
  datatype Decision = Decision(sandbox: Sandbox, source: string, failedMount: bool, reason: Reason)

  // ---------------------------------------------------------------- classification

  /** The planner's node index; nodes with an empty identifier are skipped. */
  function ByNode(nodes: seq<Node>): map<string, Node> {
    if |nodes| == 0 then map[]
    else
      var n := nodes[|nodes| - 1];
      var m := ByNode(nodes[..|nodes| - 1]);
      if n.id == "" then m else m[n.id := n]
  }

  /** Why a sandbox on the given node has to leave it, if it has to.  A stale heartbeat wins over
      draining while the node record exists. */
  function ClassifyVacate(byNode: map<string, Node>, nodeID: string, now: Time): Option<Reason> {
    if nodeID !in byNode then Some(ReasonGone)
    else if IsNodeEvictable(byNode[nodeID], now) then Some(ReasonHeartbeat)
    else if byNode[nodeID].availability.Effective().Drain? then Some(ReasonDrain)
    else None
  }

  // ---------------------------------------------------------------- the records decisions carry

  function ShortNode(id: string): string {
    if |id| <= 12 then id else id[..12]
  }

  function MountFailMessage(reason: Reason, nodeID: string): string {
    if reason.ReasonGone?
    then "node " + ShortNode(nodeID) + " left cluster; host mounts cannot be rescheduled"
    else "node " + ShortNode(nodeID) + " heartbeat stale; host mounts cannot be rescheduled"
  }

  function RescheduleMessage(reason: Reason, nodeID: string): string {
    match reason
    case ReasonDrain => "rescheduled: node " + ShortNode(nodeID) + " draining"
    case ReasonGone => "rescheduled: node " + ShortNode(nodeID) + " left cluster"
    case ReasonHeartbeat => "rescheduled: node " + ShortNode(nodeID) + " heartbeat stale"
  }

  /** The record of a sandbox that cannot follow because of its host mounts. */
  function FailMounts(sb: Sandbox, reason: Reason, now: Time): Sandbox {
    sb.(status := Status(PhaseFailed, MountFailMessage(reason, sb.nodeID), "", None, None, Some(now)),
        updatedAt := now)
  }

  /** The generation a reassignment gives to a sandbox. */
  function NextGeneration(g: int): int {
    (if g < 1 then 1 else g) + 1
  }

  /** The record of a sandbox reassigned to `target`. */
  function Move(sb: Sandbox, target: string, reason: Reason, now: Time): Sandbox {
    sb.(nodeID := target,
        generation := NextGeneration(sb.generation),
        status := Status(PhaseCreated, RescheduleMessage(reason, sb.nodeID), "", None, None, Some(now)),
        updatedAt := now)
  }

  // ---------------------------------------------------------------- the planner

  /** What the planner decides for one sandbox, given the assignments as they stand. */
  function DecideOne(nodes: seq<Node>, working: seq<Sandbox>, sb: Sandbox, now: Time, exclude: set<string>)
    : Option<Decision>
  {
    if !sb.desired.DesiredRunning? || sb.nodeID == "" then None
    else
      var verdict := ClassifyVacate(ByNode(nodes), sb.nodeID, now);
      if verdict.None? then None
      else
        var reason := verdict.value;
        if sb.spec.HasHostMounts() then
          if reason.ReasonDrain? then None
          else Some(Decision(FailMounts(sb, reason, now), sb.nodeID, true, reason))
        else
          var excludeAll := exclude + {sb.nodeID};
          if !HasLiveSchedulableNode(nodes, now, excludeAll) then None
          else
            var target := SelectNode(nodes, working, now, excludeAll);
            if target == "" || target == sb.nodeID then None
            else Some(Decision(Move(sb, target, reason, now), sb.nodeID, false, reason))
  }

  /** The working copy of the assignments once the first `|choices|` sandboxes have been decided. */
  function Working(sandboxes: seq<Sandbox>, choices: seq<Option<Decision>>): (working: seq<Sandbox>)
    requires |choices| <= |sandboxes|
    ensures |working| == |sandboxes|
    ensures forall i :: |choices| <= i < |sandboxes| ==> working[i] == sandboxes[i]
    ensures forall i :: 0 <= i < |choices| ==>
      working[i] == if choices[i].Some? then choices[i].value.sandbox else sandboxes[i]
  {
    seq(|sandboxes|, i requires 0 <= i < |sandboxes| =>
      if i < |choices| && choices[i].Some? then choices[i].value.sandbox else sandboxes[i])
  }

  /** What is decided for each of the first `k` sandboxes, one after the other. */
  function Choices(nodes: seq<Node>, sandboxes: seq<Sandbox>, now: Time, exclude: set<string>, k: nat)
    : (choices: seq<Option<Decision>>)
    requires k <= |sandboxes|
    ensures |choices| == k
  {
    if k == 0 then []
    else
      var choices := Choices(nodes, sandboxes, now, exclude, k - 1);
      choices + [DecideOne(nodes, Working(sandboxes, choices), sandboxes[k - 1], now, exclude)]
  }

  /** One more choice, as an update of the working copy. */
  lemma WorkingStep(sandboxes: seq<Sandbox>, choices: seq<Option<Decision>>)
    requires 0 < |choices| <= |sandboxes|
    ensures var k := |choices| - 1;
      var before := Working(sandboxes, choices[..k]);
      && before[k] == sandboxes[k]
      && Working(sandboxes, choices) == if choices[k].Some? then before[k := choices[k].value.sandbox] else before
  {
  }

  /** The decisions among the choices. */
  function Decided(choices: seq<Option<Decision>>): (out: seq<Decision>)
    ensures |out| <= |choices|
  {
    if |choices| == 0 then []
    else
      var last := choices[|choices| - 1];
      Decided(choices[..|choices| - 1]) + (if last.Some? then [last.value] else [])
  }

  /** The planner's list of decisions. */
  function PlanVacate(nodes: seq<Node>, sandboxes: seq<Sandbox>, now: Time, exclude: set<string>): seq<Decision> {
    Decided(Choices(nodes, sandboxes, now, exclude, |sandboxes|))
  }

  /** The assignments as they stand after the plan. */
  function Planned(nodes: seq<Node>, sandboxes: seq<Sandbox>, now: Time, exclude: set<string>): seq<Sandbox> {
    Working(sandboxes, Choices(nodes, sandboxes, now, exclude, |sandboxes|))
  }

  // ---------------------------------------------------------------- vocabulary

  ghost predicate UniqueNodes(nodes: seq<Node>) {
    forall i, j :: 0 <= i < j < |nodes| ==> nodes[i].id != nodes[j].id
  }

  ghost predicate UniqueSandboxes(sandboxes: seq<Sandbox>) {
    forall i, j :: 0 <= i < j < |sandboxes| ==> sandboxes[i].id != sandboxes[j].id
  }

  /** A running sandbox that sits on a gone, heartbeat-stale or draining node, for this reason. */
  ghost predicate MustLeave(nodes: seq<Node>, sb: Sandbox, now: Time, reason: Reason) {
    && sb.desired.DesiredRunning?
    && sb.nodeID != ""
    && match reason
       case ReasonGone => forall n :: n in nodes ==> n.id != sb.nodeID
       case ReasonHeartbeat => exists n :: n in nodes && n.id == sb.nodeID && Silent(n, now)
       case ReasonDrain =>
         exists n :: n in nodes && n.id == sb.nodeID && !Silent(n, now) && n.availability.Drain?
  }

  /** The root image or a mount binds a path or a disk image of the host. */
  ghost predicate BindsHost(spec: Spec) {
    || spec.image in {BindImage, DiskImage}
    || exists m :: m in spec.mounts && m.kind in {BindMount, DiskImageMount}
  }

  /** How a message shows an identifier: at most its first twelve characters. */
  ghost function Shown(id: string): string {
    id[..if |id| < 12 then |id| else 12]
  }

  ghost function FailureText(reason: Reason): string {
    match reason
    case ReasonGone => " left cluster; host mounts cannot be rescheduled"
    case _ => " heartbeat stale; host mounts cannot be rescheduled"
  }

  ghost function MoveText(reason: Reason): string {
    match reason
    case ReasonDrain => " draining"
    case ReasonGone => " left cluster"
    case ReasonHeartbeat => " heartbeat stale"
  }

  /** The record of a sandbox that failed where it is. */
  ghost predicate FailedInPlace(before: Sandbox, after: Sandbox, reason: Reason, now: Time) {
    && after == before.(status := after.status, updatedAt := now)
    && after.status.phase == PhaseFailed
    && after.status.localName == "" && after.status.startedAt == None && after.status.stoppedAt == None
    && after.status.updatedAt == Some(now)
    && after.status.message == "node " + Shown(before.nodeID) + FailureText(reason)
  }

  /** The record of a sandbox that was given to another node, to be created there anew. */
  ghost predicate MovedAway(before: Sandbox, after: Sandbox, reason: Reason, now: Time) {
    && after == before.(nodeID := after.nodeID, generation := after.generation,
                        status := after.status, updatedAt := now)
    && after.nodeID != "" && after.nodeID != before.nodeID
    && after.generation == (if before.generation < 1 then 1 else before.generation) + 1
    && after.status.phase == PhaseCreated
    && after.status.localName == "" && after.status.startedAt == None && after.status.stoppedAt == None
    && after.status.updatedAt == Some(now)
    && after.status.message == "rescheduled: node " + Shown(before.nodeID) + MoveText(reason)
  }

  // ---------------------------------------------------------------- classification, by meaning

  lemma {:induction false} ByNodeMeaning(nodes: seq<Node>)
    requires UniqueNodes(nodes)
    ensures forall id :: id in ByNode(nodes) ==> id != "" && ByNode(nodes)[id] in nodes && ByNode(nodes)[id].id == id
    ensures forall n :: n in nodes && n.id != "" ==> n.id in ByNode(nodes) && ByNode(nodes)[n.id] == n
  {
    if |nodes| > 0 {
      var init := nodes[..|nodes| - 1];
      var last := nodes[|nodes| - 1];
      ByNodeMeaning(init);
      assert nodes == init + [last];
      forall n | n in nodes && n.id != ""
        ensures n.id in ByNode(nodes) && ByNode(nodes)[n.id] == n
      {
        if n != last {
          assert n in init && n.id != last.id;
        }
      }
    }
  }

  /** The classification says exactly which of the three reasons applies. */
  lemma ClassifyMeaning(nodes: seq<Node>, sb: Sandbox, now: Time)
    requires UniqueNodes(nodes)
    requires sb.desired.DesiredRunning? && sb.nodeID != ""
    ensures forall r :: ClassifyVacate(ByNode(nodes), sb.nodeID, now) == Some(r) <==> MustLeave(nodes, sb, now, r)
  {
    ByNodeMeaning(nodes);
  }

  /** A node that sandboxes must leave is never a live placement candidate. */
  lemma SourceIsNoTarget(nodes: seq<Node>, sb: Sandbox, now: Time, reason: Reason, exclude: set<string>, n: Node)
    requires UniqueNodes(nodes)
    requires MustLeave(nodes, sb, now, reason)
    requires n in nodes && Candidate(n, now, exclude, true)
    ensures n.id != sb.nodeID
  {
    if n.id == sb.nodeID {
      ByNodeMeaning(nodes);
    }
  }

  // ---------------------------------------------------------------- one decision, by meaning

  /** Whether a live target exists does not depend on the source that is excluded on top. */
  lemma GuardIgnoresSource(nodes: seq<Node>, sb: Sandbox, now: Time, reason: Reason, exclude: set<string>)
    requires UniqueNodes(nodes)
    requires MustLeave(nodes, sb, now, reason)
    ensures HasLiveSchedulableNode(nodes, now, exclude + {sb.nodeID}) == HasLiveSchedulableNode(nodes, now, exclude)
  {
    forall n | n in nodes
      ensures Candidate(n, now, exclude + {sb.nodeID}, true) == Candidate(n, now, exclude, true)
    {
      if Candidate(n, now, exclude, true) {
        SourceIsNoTarget(nodes, sb, now, reason, exclude, n);
      }
    }
  }

  /** A target of a reassignment: live, accepted, schedulable, not excluded, and the first in list
      order of least load among the nodes with these properties. */
  ghost predicate GoodTarget(
      nodes: seq<Node>, working: seq<Sandbox>, now: Time, exclude: set<string>, target: string) {
    && (exists n :: n in nodes && n.id == target && Candidate(n, now, exclude, true))
    && IsFirstLeastLoaded(target, nodes, working, now, exclude, true)
  }

  /** The selection under the planner's guard: it finds a good target, so the test that follows the
      selection in the planner never fires. */
  lemma SelectionFindsTarget(
      nodes: seq<Node>, working: seq<Sandbox>, sb: Sandbox, now: Time, reason: Reason, exclude: set<string>)
    requires UniqueNodes(nodes)
    requires MustLeave(nodes, sb, now, reason)
    requires HasLiveSchedulableNode(nodes, now, exclude + {sb.nodeID})
    ensures var target := SelectNode(nodes, working, now, exclude + {sb.nodeID});
      target != "" && target != sb.nodeID && GoodTarget(nodes, working, now, exclude, target)
  {
    hide Load, SelectNode, MustLeave;
    var all := exclude + {sb.nodeID};
    SelectNodeMeaning(nodes, working, now, all);
    var target := SelectNode(nodes, working, now, all);
    assert forall n :: Candidate(n, now, all, true) ==> Candidate(n, now, exclude, true);
    var i :| 0 <= i < |nodes| && nodes[i].id == target && Candidate(nodes[i], now, all, true)
      && forall j :: 0 <= j < |nodes| && Candidate(nodes[j], now, all, true) ==>
           && Load(working, target) <= Load(working, nodes[j].id)
           && (j < i ==> Load(working, target) < Load(working, nodes[j].id));
    assert nodes[i] in nodes;
    forall j | 0 <= j < |nodes| && Candidate(nodes[j], now, exclude, true)
      ensures Candidate(nodes[j], now, all, true)
    {
      assert nodes[j] in nodes;
      SourceIsNoTarget(nodes, sb, now, reason, exclude, nodes[j]);
    }
    assert IsFirstLeastLoaded(target, nodes, working, now, exclude, true);
  }

  /** What one choice has to satisfy, stated without the planner: something is decided exactly when
      the sandbox must leave its node and either is pinned there by host mounts (and the node is not
      merely draining) or a live target exists; and the decision is then fully determined up to the
      choice of the target. */
  ghost predicate Fits(
      nodes: seq<Node>, working: seq<Sandbox>, sb: Sandbox, now: Time, exclude: set<string>, choice: Option<Decision>) {
    match choice
    case Some(d) =>
      && MustLeave(nodes, sb, now, d.reason)
      && d.source == sb.nodeID
      && d.failedMount == BindsHost(sb.spec)
      && if d.failedMount
         then !d.reason.ReasonDrain? && FailedInPlace(sb, d.sandbox, d.reason, now)
         else
           && HasLiveSchedulableNode(nodes, now, exclude)
           && MovedAway(sb, d.sandbox, d.reason, now)
           && GoodTarget(nodes, working, now, exclude, d.sandbox.nodeID)
    case None =>
      forall r :: MustLeave(nodes, sb, now, r) ==>
        if BindsHost(sb.spec) then r.ReasonDrain? else !HasLiveSchedulableNode(nodes, now, exclude)
  }

  lemma HostMountsMeaning(spec: Spec)
    ensures spec.HasHostMounts() <==> BindsHost(spec)
  {
  }

  lemma MessageMeaning(reason: Reason, id: string)
    ensures MountFailMessage(reason, id) == "node " + Shown(id) + FailureText(reason)
    ensures RescheduleMessage(reason, id) == "rescheduled: node " + Shown(id) + MoveText(reason)
  {
    assert id == id[..|id|];
    assert ShortNode(id) == Shown(id);
    hide ShortNode, Shown;
    match reason
    case ReasonDrain =>
    case ReasonGone =>
    case ReasonHeartbeat =>
  }

  lemma FailMountsMeaning(sb: Sandbox, reason: Reason, now: Time)
    ensures FailedInPlace(sb, FailMounts(sb, reason, now), reason, now)
  {
    hide MountFailMessage, RescheduleMessage, Shown, FailureText;
    MessageMeaning(reason, sb.nodeID);
  }

  lemma MoveMeaning(sb: Sandbox, target: string, reason: Reason, now: Time)
    requires target != "" && target != sb.nodeID
    ensures MovedAway(sb, Move(sb, target, reason, now), reason, now)
  {
    hide MountFailMessage, RescheduleMessage, Shown, MoveText;
    MessageMeaning(reason, sb.nodeID);
  }

  lemma DecideOneFits(nodes: seq<Node>, working: seq<Sandbox>, sb: Sandbox, now: Time, exclude: set<string>)
    requires UniqueNodes(nodes)
    ensures Fits(nodes, working, sb, now, exclude, DecideOne(nodes, working, sb, now, exclude))
  {
    hide BindsHost, FailedInPlace, MovedAway, FailMounts, MustLeave, GoodTarget, SelectNode, ClassifyVacate;
    hide HasLiveSchedulableNode;
    if sb.desired.DesiredRunning? && sb.nodeID != "" {
      ClassifyMeaning(nodes, sb, now);
      HostMountsMeaning(sb.spec);
      var verdict := ClassifyVacate(ByNode(nodes), sb.nodeID, now);
      if verdict.Some? {
        FailMountsMeaning(sb, verdict.value, now);
        GuardIgnoresSource(nodes, sb, now, verdict.value, exclude);
        if HasLiveSchedulableNode(nodes, now, exclude + {sb.nodeID}) {
          SelectionFindsTarget(nodes, working, sb, now, verdict.value, exclude);
          MoveMeaning(sb, SelectNode(nodes, working, now, exclude + {sb.nodeID}), verdict.value, now);
        }
      }
    } else {
      NoReasonToLeave(nodes, sb, now);
    }
  }

  lemma NoReasonToLeave(nodes: seq<Node>, sb: Sandbox, now: Time)
    requires !sb.desired.DesiredRunning? || sb.nodeID == ""
    ensures forall r :: !MustLeave(nodes, sb, now, r)
  {
  }

  /** Every choice of a plan fits, against the assignments as they stood when it was made. */
  ghost predicate AllFit(
      nodes: seq<Node>, sandboxes: seq<Sandbox>, now: Time, exclude: set<string>, choices: seq<Option<Decision>>)
    requires |choices| <= |sandboxes|
  {
    forall i :: 0 <= i < |choices| ==>
      Fits(nodes, Working(sandboxes, choices[..i]), sandboxes[i], now, exclude, choices[i])
  }

  lemma NoChoices(nodes: seq<Node>, sandboxes: seq<Sandbox>, now: Time, exclude: set<string>)
    ensures Choices(nodes, sandboxes, now, exclude, 0) == []
    ensures AllFit(nodes, sandboxes, now, exclude, [])
    ensures Working(sandboxes, []) == sandboxes
    ensures Decided([]) == []
  {
  }

  lemma ChoicesStep(nodes: seq<Node>, sandboxes: seq<Sandbox>, now: Time, exclude: set<string>, k: nat)
    requires 0 < k <= |sandboxes|
    ensures var before := Choices(nodes, sandboxes, now, exclude, k - 1);
      Choices(nodes, sandboxes, now, exclude, k)
        == before + [DecideOne(nodes, Working(sandboxes, before), sandboxes[k - 1], now, exclude)]
  {
    hide DecideOne;
  }

  lemma FitAppend(
      nodes: seq<Node>, sandboxes: seq<Sandbox>, now: Time, exclude: set<string>,
      choices: seq<Option<Decision>>, choice: Option<Decision>)
    requires |choices| < |sandboxes|
    requires AllFit(nodes, sandboxes, now, exclude, choices)
    requires Fits(nodes, Working(sandboxes, choices), sandboxes[|choices|], now, exclude, choice)
    ensures AllFit(nodes, sandboxes, now, exclude, choices + [choice])
  {
    hide Fits, Working;
    var longer := choices + [choice];
    forall i | 0 <= i < |longer|
      ensures Fits(nodes, Working(sandboxes, longer[..i]), sandboxes[i], now, exclude, longer[i])
    {
      if i < |choices| {
        assert longer[..i] == choices[..i];
      } else {
        assert longer[..i] == choices;
      }
    }
  }

  lemma {:induction false} ChoicesFit(
      nodes: seq<Node>, sandboxes: seq<Sandbox>, now: Time, exclude: set<string>, k: nat)
    requires UniqueNodes(nodes)
    requires k <= |sandboxes|
    ensures AllFit(nodes, sandboxes, now, exclude, Choices(nodes, sandboxes, now, exclude, k))
  {
    hide Fits, DecideOne, Working, Choices, AllFit;
    if k == 0 {
      NoChoices(nodes, sandboxes, now, exclude);
    } else {
      var before := Choices(nodes, sandboxes, now, exclude, k - 1);
      var working := Working(sandboxes, before);
      ChoicesFit(nodes, sandboxes, now, exclude, k - 1);
      ChoicesStep(nodes, sandboxes, now, exclude, k);
      DecideOneFits(nodes, working, sandboxes[k - 1], now, exclude);
      FitAppend(nodes, sandboxes, now, exclude, before, DecideOne(nodes, working, sandboxes[k - 1], now, exclude));
    }
  }

  lemma {:induction false} DecidedMeaning(choices: seq<Option<Decision>>)
    ensures forall d :: d in Decided(choices) <==> Some(d) in choices
  {
    if |choices| > 0 {
      var init := choices[..|choices| - 1];
      DecidedMeaning(init);
      assert choices == init + [choices[|choices| - 1]];
    }
  }
}
