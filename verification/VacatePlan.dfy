/** What a whole evacuation plan guarantees: frame, accounting, completeness, independence of the
    list order, and the fixpoint property. */
module VacatePlan {
  import opened Records
  import opened Scheduler
  import opened Vacate

  // ---------------------------------------------------------------- frame

  /** Frame.  The plan keeps the list of sandboxes position by position.  A record changes only where
      a decision was taken for it, and then only in its node, its generation, its status and its
      update time; a changed node takes generation `g` to `max(g, 1) + 1`. */
  lemma PlanFrame(nodes: seq<Node>, sandboxes: seq<Sandbox>, now: Time, exclude: set<string>, i: nat)
    requires UniqueNodes(nodes)
    requires i < |sandboxes|
    ensures var before, after := sandboxes[i], Planned(nodes, sandboxes, now, exclude)[i];
      && after == before.(nodeID := after.nodeID, generation := after.generation,
                          status := after.status, updatedAt := after.updatedAt)
      && (after != before ==>
            exists d :: d in PlanVacate(nodes, sandboxes, now, exclude) &&
              d.sandbox == after && d.source == before.nodeID)
      && (if after.nodeID == before.nodeID
          then after.generation == before.generation
          else after.generation == (if before.generation < 1 then 1 else before.generation) + 1)
  {
    hide Choices, GoodTarget, MustLeave, HasLiveSchedulableNode;
    var choices := Choices(nodes, sandboxes, now, exclude, |sandboxes|);
    ChoicesFit(nodes, sandboxes, now, exclude, |sandboxes|);
    assert Fits(nodes, Working(sandboxes, choices[..i]), sandboxes[i], now, exclude, choices[i]);
    if choices[i].Some? {
      DecidedMeaning(choices);
      assert Some(choices[i].value) in choices;
    }
  }

  ghost predicate OnePerSandbox(out: seq<Decision>) {
    forall a, b :: 0 <= a < b < |out| ==> out[a].sandbox.id != out[b].sandbox.id
  }

  /** The decision is the choice made at position `i`, and holds the record planned there. */
  ghost predicate FiledAt(sandboxes: seq<Sandbox>, choices: seq<Option<Decision>>, d: Decision, i: nat)
    requires i < |sandboxes| == |choices|
  {
    && choices[i] == Some(d)
    && sandboxes[i].id == d.sandbox.id
    && Working(sandboxes, choices)[i] == d.sandbox
  }

  /** With unique identifiers every sandbox has at most one decision, filed under its own
      identifier and holding the record the sandbox ends up with. */
  lemma OneDecisionEach(nodes: seq<Node>, sandboxes: seq<Sandbox>, now: Time, exclude: set<string>)
    requires UniqueNodes(nodes) && UniqueSandboxes(sandboxes)
    ensures var out := PlanVacate(nodes, sandboxes, now, exclude);
      && OnePerSandbox(out)
      && (forall d :: d in out ==>
            exists i :: 0 <= i < |sandboxes|
              && FiledAt(sandboxes, Choices(nodes, sandboxes, now, exclude, |sandboxes|), d, i))
  {
    hide Choices, Fits;
    var choices := Choices(nodes, sandboxes, now, exclude, |sandboxes|);
    ChoicesFit(nodes, sandboxes, now, exclude, |sandboxes|);
    KeepsId(nodes, sandboxes, now, exclude, choices);
    DecidedDistinct(sandboxes, choices);
    DecidedMeaning(choices);
    forall d | d in Decided(choices)
      ensures exists i :: 0 <= i < |sandboxes| && FiledAt(sandboxes, choices, d, i)
    {
      var i :| 0 <= i < |choices| && choices[i] == Some(d);
      assert FiledAt(sandboxes, choices, d, i);
    }
  }

  /** Every decision keeps the identifier of the sandbox it is for. */
  lemma KeepsId(
      nodes: seq<Node>, sandboxes: seq<Sandbox>, now: Time, exclude: set<string>, choices: seq<Option<Decision>>)
    requires |choices| <= |sandboxes|
    requires AllFit(nodes, sandboxes, now, exclude, choices)
    ensures forall i :: 0 <= i < |choices| && choices[i].Some? ==> choices[i].value.sandbox.id == sandboxes[i].id
  {
    forall i | 0 <= i < |choices| && choices[i].Some?
      ensures choices[i].value.sandbox.id == sandboxes[i].id
    {
      assert Fits(nodes, Working(sandboxes, choices[..i]), sandboxes[i], now, exclude, choices[i]);
    }
  }

  lemma {:induction false} DecidedDistinct(sandboxes: seq<Sandbox>, choices: seq<Option<Decision>>)
    requires UniqueSandboxes(sandboxes) && |choices| <= |sandboxes|
    requires forall i :: 0 <= i < |choices| && choices[i].Some? ==> choices[i].value.sandbox.id == sandboxes[i].id
    ensures OnePerSandbox(Decided(choices))
  {
    if |choices| > 0 {
      var last := |choices| - 1;
      var init := choices[..last];
      var rest := Decided(init);
      DecidedDistinct(sandboxes, init);
      DecidedMeaning(init);
      if choices[last].Some? {
        var d := choices[last].value;
        forall a | 0 <= a < |rest| ensures rest[a].sandbox.id != d.sandbox.id {
          assert rest[a] in rest;
          var i :| 0 <= i < |init| && init[i] == Some(rest[a]);
          assert choices[i] == init[i];
        }
        assert Decided(choices) == rest + [d];
      } else {
        assert Decided(choices) == rest;
      }
    }
  }

  /** Every reassignment goes to an open node with a heartbeat in the last thirty seconds, other than
      the source: the first in list order of those with the fewest sandboxes, counted over the
      assignments as they stood when the decision was taken. */
  lemma EveryTargetIsGood(nodes: seq<Node>, sandboxes: seq<Sandbox>, now: Time, exclude: set<string>, i: nat)
    requires UniqueNodes(nodes)
    requires i < |sandboxes|
    ensures var choices := Choices(nodes, sandboxes, now, exclude, |sandboxes|);
      choices[i].Some? && !choices[i].value.failedMount ==>
        var target, working := choices[i].value.sandbox.nodeID, Working(sandboxes, choices[..i]);
        && target != sandboxes[i].nodeID
        && exists k: nat :: FirstFewest(nodes, working, now, exclude, true, k) && nodes[k].id == target
  {
    hide GoodTarget, FirstFewest, MovedAway;
    var choices := Choices(nodes, sandboxes, now, exclude, |sandboxes|);
    ChoicesFit(nodes, sandboxes, now, exclude, |sandboxes|);
    hide Choices;
    var working := Working(sandboxes, choices[..i]);
    assert Fits(nodes, working, sandboxes[i], now, exclude, choices[i]);
    if choices[i].Some? && !choices[i].value.failedMount {
      var k := GoodIsFewest(nodes, working, now, exclude, choices[i].value.sandbox.nodeID);
      MovesElsewhere(sandboxes[i], choices[i].value.sandbox, choices[i].value.reason, now);
    }
  }

  lemma MovesElsewhere(before: Sandbox, after: Sandbox, reason: Reason, now: Time)
    requires MovedAway(before, after, reason, now)
    ensures after.nodeID != before.nodeID && after.id == before.id
  {
  }

  lemma GoodIsFewest(nodes: seq<Node>, working: seq<Sandbox>, now: Time, exclude: set<string>, target: string)
    returns (k: nat)
    requires GoodTarget(nodes, working, now, exclude, target)
    ensures FirstFewest(nodes, working, now, exclude, true, k) && nodes[k].id == target
  {
    hide Load, On, Open, Fresh, Candidate;
    forall n ensures Candidate(n, now, exclude, true) <==> Open(n, exclude) && Fresh(n, now) {
      CandidateMeaning(n, now, exclude, true);
    }
    k :| 0 <= k < |nodes| && nodes[k].id == target && Candidate(nodes[k], now, exclude, true)
      && forall j :: 0 <= j < |nodes| && Candidate(nodes[j], now, exclude, true) ==>
           && Load(working, target) <= Load(working, nodes[j].id)
           && (j < k ==> Load(working, target) < Load(working, nodes[j].id));
    forall j | 0 <= j < |nodes| && Open(nodes[j], exclude)
      ensures Load(working, nodes[j].id) == |On(working, nodes[j].id)|
    {
      OpenIsNamed(nodes[j], exclude);
      LoadIsCount(working, nodes[j].id);
    }
  }

  /** A decision read off the records alone: a running sandbox that has to leave its node fails in place
      if it binds the host and its node is not merely draining, or else moves to an open, recently
      heard node. */
  ghost predicate Reads(nodes: seq<Node>, sb: Sandbox, now: Time, exclude: set<string>, d: Decision) {
    && d.source == sb.nodeID && MustLeave(nodes, sb, now, d.reason)
    && d.failedMount == BindsHost(sb.spec)
    && if d.failedMount then d.reason != ReasonDrain && FailedInPlace(sb, d.sandbox, d.reason, now)
       else
         && MovedAway(sb, d.sandbox, d.reason, now)
         && exists n :: n in nodes && n.id == d.sandbox.nodeID && Open(n, exclude) && Fresh(n, now)
  }

  /** Every decision of a plan reads like that for one of the sandboxes; and a sandbox for which none is
      taken need not leave, or binds the host of a node that is merely draining, or there is no open,
      recently heard node. */
  lemma DecisionsRead(nodes: seq<Node>, sandboxes: seq<Sandbox>, now: Time, exclude: set<string>)
    requires UniqueNodes(nodes)
    ensures var out := PlanVacate(nodes, sandboxes, now, exclude);
      && (forall d :: d in out ==> exists sb :: sb in sandboxes && Reads(nodes, sb, now, exclude, d))
      && forall sb, r :: sb in sandboxes && MustLeave(nodes, sb, now, r) ==>
           || (exists d :: d in out && Reads(nodes, sb, now, exclude, d))
           || (BindsHost(sb.spec) && r == ReasonDrain)
           || (!BindsHost(sb.spec) && forall n :: n in nodes ==> !(Open(n, exclude) && Fresh(n, now)))
  {
    hide Choices, Reads, MustLeave, BindsHost, Open, Fresh;
    var choices := Choices(nodes, sandboxes, now, exclude, |sandboxes|);
    ChoicesFit(nodes, sandboxes, now, exclude, |sandboxes|);
    DecidedMeaning(choices);
    forall i | 0 <= i < |sandboxes|
      ensures choices[i].Some? ==> Reads(nodes, sandboxes[i], now, exclude, choices[i].value)
      ensures choices[i].None? ==> forall r :: MustLeave(nodes, sandboxes[i], now, r) ==>
        if BindsHost(sandboxes[i].spec) then r == ReasonDrain
        else forall n :: n in nodes ==> !(Open(n, exclude) && Fresh(n, now))
    {
      assert Fits(nodes, Working(sandboxes, choices[..i]), sandboxes[i], now, exclude, choices[i]);
      FittingReads(nodes, Working(sandboxes, choices[..i]), sandboxes[i], now, exclude, choices[i]);
    }
    forall d | d in Decided(choices)
      ensures exists sb :: sb in sandboxes && Reads(nodes, sb, now, exclude, d)
    {
      var i :| 0 <= i < |choices| && choices[i] == Some(d);
      assert sandboxes[i] in sandboxes;
    }
    forall sb, r | sb in sandboxes && MustLeave(nodes, sb, now, r)
      ensures (exists d :: d in Decided(choices) && Reads(nodes, sb, now, exclude, d))
        || (BindsHost(sb.spec) && r == ReasonDrain)
        || (!BindsHost(sb.spec) && forall n :: n in nodes ==> !(Open(n, exclude) && Fresh(n, now)))
    {
      var i :| 0 <= i < |sandboxes| && sandboxes[i] == sb;
      if choices[i].Some? {
        assert choices[i] in choices && Reads(nodes, sb, now, exclude, choices[i].value);
      }
    }
  }

  /** What the plan makes of one sandbox, whatever the others are: nothing if it need not leave; if it
      binds the host, a failure in place, or nothing on a node that is merely draining; else a move, if
      any node is open and recently heard. */
  lemma PlannedReads(nodes: seq<Node>, sandboxes: seq<Sandbox>, now: Time, exclude: set<string>, i: nat)
    requires UniqueNodes(nodes) && i < |sandboxes|
    ensures
      var before, after := sandboxes[i], Planned(nodes, sandboxes, now, exclude)[i];
      && ((forall r :: !MustLeave(nodes, before, now, r)) ==> after == before)
      && forall r :: MustLeave(nodes, before, now, r) ==>
           if BindsHost(before.spec) then
             if r == ReasonDrain then after == before else FailedInPlace(before, after, r, now)
           else if exists n :: n in nodes && Open(n, exclude) && Fresh(n, now) then
             && MovedAway(before, after, r, now)
             && exists n :: n in nodes && n.id == after.nodeID && Open(n, exclude) && Fresh(n, now)
           else after == before
  {
    hide Choices, Reads, MustLeave, BindsHost, Open, Fresh, FailedInPlace, MovedAway;
    var choices := Choices(nodes, sandboxes, now, exclude, |sandboxes|);
    ChoicesFit(nodes, sandboxes, now, exclude, |sandboxes|);
    var before := sandboxes[i];
    assert Fits(nodes, Working(sandboxes, choices[..i]), before, now, exclude, choices[i]);
    FittingReads(nodes, Working(sandboxes, choices[..i]), before, now, exclude, choices[i]);
    hide Fits;
    if choices[i].Some? {
      var d := choices[i].value;
      ReadingUnfolds(nodes, before, now, exclude, d);
      forall r | MustLeave(nodes, before, now, r) ensures r == d.reason {
        ReasonUnique(nodes, before, now, r, d.reason);
      }
    }
  }

  lemma ReadingUnfolds(nodes: seq<Node>, sb: Sandbox, now: Time, exclude: set<string>, d: Decision)
    requires Reads(nodes, sb, now, exclude, d)
    ensures MustLeave(nodes, sb, now, d.reason)
    ensures
      if BindsHost(sb.spec) then d.reason != ReasonDrain && FailedInPlace(sb, d.sandbox, d.reason, now)
      else
        && MovedAway(sb, d.sandbox, d.reason, now)
        && exists n :: n in nodes && n.id == d.sandbox.nodeID && Open(n, exclude) && Fresh(n, now)
  {
    hide MustLeave, BindsHost, FailedInPlace, MovedAway, Open, Fresh;
  }

  lemma FittingReads(
      nodes: seq<Node>, working: seq<Sandbox>, sb: Sandbox, now: Time, exclude: set<string>, choice: Option<Decision>)
    requires Fits(nodes, working, sb, now, exclude, choice)
    ensures choice.Some? ==> Reads(nodes, sb, now, exclude, choice.value)
    ensures choice.None? ==> forall r :: MustLeave(nodes, sb, now, r) ==>
      if BindsHost(sb.spec) then r == ReasonDrain
      else forall n :: n in nodes ==> !(Open(n, exclude) && Fresh(n, now))
  {
    hide MustLeave, BindsHost, FailedInPlace, MovedAway, IsFirstLeastLoaded, Open, Fresh, Candidate;
    forall n ensures Candidate(n, now, exclude, true) <==> Open(n, exclude) && Fresh(n, now) {
      CandidateMeaning(n, now, exclude, true);
    }
  }

  // ---------------------------------------------------------------- accounting

  /** How many reassignments go to, or come from, a node, and how many there are. */
  function MovesTo(out: seq<Decision>, id: string): nat {
    if |out| == 0 then 0
    else
      var d := out[|out| - 1];
      MovesTo(out[..|out| - 1], id) + (if !d.failedMount && d.sandbox.nodeID == id then 1 else 0)
  }

  function MovesFrom(out: seq<Decision>, id: string): nat {
    if |out| == 0 then 0
    else
      var d := out[|out| - 1];
      MovesFrom(out[..|out| - 1], id) + (if !d.failedMount && d.source == id then 1 else 0)
  }

  function Moves(out: seq<Decision>): nat {
    if |out| == 0 then 0
    else Moves(out[..|out| - 1]) + (if out[|out| - 1].failedMount then 0 else 1)
  }

  /** How many sandboxes count towards the load of some node. */
  function Assigned(sandboxes: seq<Sandbox>): nat {
    if |sandboxes| == 0 then 0
    else
      var last := sandboxes[|sandboxes| - 1];
      Assigned(sandboxes[..|sandboxes| - 1]) + (if Occupies(last, last.nodeID) then 1 else 0)
  }

  lemma {:induction false} AssignedUpdate(sandboxes: seq<Sandbox>, i: nat, sb: Sandbox)
    requires i < |sandboxes|
    requires Occupies(sb, sb.nodeID) == Occupies(sandboxes[i], sandboxes[i].nodeID)
    ensures Assigned(sandboxes[i := sb]) == Assigned(sandboxes)
  {
    var last := |sandboxes| - 1;
    if i == last {
      assert sandboxes[i := sb][..last] == sandboxes[..last];
    } else {
      assert sandboxes[i := sb][..last] == sandboxes[..last][i := sb];
      AssignedUpdate(sandboxes[..last], i, sb);
    }
  }

  /** As far as loads go, a decision either leaves the node alone or moves a running sandbox from
      the (non-empty) source to a different (non-empty) node. */
  ghost predicate Shifts(sb: Sandbox, choice: Option<Decision>) {
    choice.Some? ==>
      var d := choice.value;
      && sb.desired.DesiredRunning? && d.sandbox.desired.DesiredRunning?
      && sb.nodeID != "" && d.sandbox.nodeID != ""
      && d.source == sb.nodeID
      && (d.failedMount <==> d.sandbox.nodeID == sb.nodeID)
  }

  lemma AllShift(
      nodes: seq<Node>, sandboxes: seq<Sandbox>, now: Time, exclude: set<string>, choices: seq<Option<Decision>>)
    requires |choices| <= |sandboxes|
    requires AllFit(nodes, sandboxes, now, exclude, choices)
    ensures forall i :: 0 <= i < |choices| ==> Shifts(sandboxes[i], choices[i])
  {
    forall i | 0 <= i < |choices|
      ensures Shifts(sandboxes[i], choices[i])
    {
      assert Fits(nodes, Working(sandboxes, choices[..i]), sandboxes[i], now, exclude, choices[i]);
    }
  }

  lemma {:induction false} ShiftsConserve(sandboxes: seq<Sandbox>, choices: seq<Option<Decision>>, id: string)
    requires |choices| <= |sandboxes|
    requires forall i :: 0 <= i < |choices| ==> Shifts(sandboxes[i], choices[i])
    ensures var working, out := Working(sandboxes, choices), Decided(choices);
      && Assigned(working) == Assigned(sandboxes)
      && (id != "" ==> Load(working, id) + MovesFrom(out, id) == Load(sandboxes, id) + MovesTo(out, id))
  {
    hide Working;
    if |choices| == 0 {
      assert Working(sandboxes, choices) == sandboxes;
    } else {
      var k := |choices| - 1;
      var init := choices[..k];
      ShiftsConserve(sandboxes, init, id);
      WorkingStep(sandboxes, choices);
      if choices[k].Some? {
        var d := choices[k].value;
        assert Decided(choices)[..|Decided(choices)| - 1] == Decided(init);
        AssignedUpdate(Working(sandboxes, init), k, d.sandbox);
        LoadUpdate(Working(sandboxes, init), k, d.sandbox, id);
      } else {
        assert Decided(choices) == Decided(init);
      }
    }
  }

  /** Conservation.  Over the whole list the number of assigned sandboxes is preserved, and every
      node's load changes by exactly the reassignments to it less those from it. */
  lemma PlanConserves(nodes: seq<Node>, sandboxes: seq<Sandbox>, now: Time, exclude: set<string>, id: string)
    requires UniqueNodes(nodes)
    ensures var working, out := Planned(nodes, sandboxes, now, exclude), PlanVacate(nodes, sandboxes, now, exclude);
      && Assigned(working) == Assigned(sandboxes)
      && (id != "" ==> Load(working, id) + MovesFrom(out, id) == Load(sandboxes, id) + MovesTo(out, id))
  {
    hide Choices, Fits;
    var choices := Choices(nodes, sandboxes, now, exclude, |sandboxes|);
    ChoicesFit(nodes, sandboxes, now, exclude, |sandboxes|);
    AllShift(nodes, sandboxes, now, exclude, choices);
    ShiftsConserve(sandboxes, choices, id);
  }

  // ---------------------------------------------------------------- completeness

  /** A node with a fresh heartbeat that accepts placements is not one that sandboxes must leave. */
  lemma LiveTargetIsSafe(
      nodes: seq<Node>, now: Time, exclude: set<string>, target: string, sb: Sandbox, reason: Reason)
    requires UniqueNodes(nodes)
    requires exists n :: n in nodes && n.id == target && Candidate(n, now, exclude, true)
    requires sb.nodeID == target
    ensures !MustLeave(nodes, sb, now, reason)
  {
    if MustLeave(nodes, sb, now, reason) {
      var n :| n in nodes && n.id == target && Candidate(n, now, exclude, true);
      SourceIsNoTarget(nodes, sb, now, reason, exclude, n);
    }
  }

  /** All or nothing.  If some live, schedulable, accepted node is outside the exclusions, then after
      the plan no running sandbox without host mounts is on a gone, stale or draining node; otherwise
      the plan reassigns nothing. */
  lemma AllOrNothing(nodes: seq<Node>, sandboxes: seq<Sandbox>, now: Time, exclude: set<string>)
    requires UniqueNodes(nodes)
    ensures HasLiveSchedulableNode(nodes, now, exclude) ==>
      forall sb, r :: sb in Planned(nodes, sandboxes, now, exclude) && !sb.spec.HasHostMounts() ==>
        !MustLeave(nodes, sb, now, r)
    ensures !HasLiveSchedulableNode(nodes, now, exclude) ==>
      && (forall d :: d in PlanVacate(nodes, sandboxes, now, exclude) ==> d.failedMount)
      && (forall i :: 0 <= i < |sandboxes| ==>
            Planned(nodes, sandboxes, now, exclude)[i].nodeID == sandboxes[i].nodeID)
  {
    hide Choices, HasLiveSchedulableNode;
    var choices := Choices(nodes, sandboxes, now, exclude, |sandboxes|);
    var planned := Working(sandboxes, choices);
    ChoicesFit(nodes, sandboxes, now, exclude, |sandboxes|);
    DecidedMeaning(choices);
    forall i | 0 <= i < |sandboxes|
      ensures !HasLiveSchedulableNode(nodes, now, exclude) ==>
        planned[i].nodeID == sandboxes[i].nodeID && (choices[i].Some? ==> choices[i].value.failedMount)
      ensures HasLiveSchedulableNode(nodes, now, exclude) && !planned[i].spec.HasHostMounts() ==>
        forall r :: !MustLeave(nodes, planned[i], now, r)
    {
      EvacuatedAt(nodes, sandboxes, now, exclude, choices, i);
    }
    forall sb, r | sb in planned && !sb.spec.HasHostMounts() && HasLiveSchedulableNode(nodes, now, exclude)
      ensures !MustLeave(nodes, sb, now, r)
    {
      var i :| 0 <= i < |planned| && planned[i] == sb;
    }
  }

  lemma EvacuatedAt(
      nodes: seq<Node>, sandboxes: seq<Sandbox>, now: Time, exclude: set<string>,
      choices: seq<Option<Decision>>, i: nat)
    requires UniqueNodes(nodes)
    requires i < |sandboxes| == |choices|
    requires AllFit(nodes, sandboxes, now, exclude, choices)
    ensures var after := Working(sandboxes, choices)[i];
      if HasLiveSchedulableNode(nodes, now, exclude)
      then !after.spec.HasHostMounts() ==> forall r :: !MustLeave(nodes, after, now, r)
      else after.nodeID == sandboxes[i].nodeID && (choices[i].Some? ==> choices[i].value.failedMount)
  {
    hide MustLeave, HasLiveSchedulableNode, IsFirstLeastLoaded;
    var sb := sandboxes[i];
    assert Fits(nodes, Working(sandboxes, choices[..i]), sb, now, exclude, choices[i]);
    if choices[i].Some? && !choices[i].value.failedMount {
      var after := choices[i].value.sandbox;
      forall r ensures !MustLeave(nodes, after, now, r) {
        LiveTargetIsSafe(nodes, now, exclude, after.nodeID, after, r);
      }
    }
  }

  // ---------------------------------------------------------------- independence of the list order

  ghost predicate SameNodes(nodes: seq<Node>, nodes': seq<Node>) {
    UniqueNodes(nodes) && UniqueNodes(nodes') && forall n :: n in nodes <==> n in nodes'
  }

  lemma SameNodesSameVerdict(nodes: seq<Node>, nodes': seq<Node>, now: Time, exclude: set<string>)
    requires SameNodes(nodes, nodes')
    ensures forall sb, r :: MustLeave(nodes, sb, now, r) <==> MustLeave(nodes', sb, now, r)
    ensures HasLiveSchedulableNode(nodes, now, exclude) == HasLiveSchedulableNode(nodes', now, exclude)
  {
  }

  /** At most one reason applies. */
  lemma ReasonUnique(nodes: seq<Node>, sb: Sandbox, now: Time, r: Reason, r': Reason)
    requires UniqueNodes(nodes)
    requires MustLeave(nodes, sb, now, r) && MustLeave(nodes, sb, now, r')
    ensures r == r'
  {
    ClassifyMeaning(nodes, sb, now);
  }

  /** What is decided about a sandbox, apart from the target, does not depend on the assignments or
      on the order of the nodes. */
  lemma SameChoiceKind(
      nodes: seq<Node>, working: seq<Sandbox>, nodes': seq<Node>, working': seq<Sandbox>,
      sb: Sandbox, now: Time, exclude: set<string>, choice: Option<Decision>, choice': Option<Decision>)
    requires SameNodes(nodes, nodes')
    requires Fits(nodes, working, sb, now, exclude, choice)
    requires Fits(nodes', working', sb, now, exclude, choice')
    ensures choice.Some? == choice'.Some?
    ensures choice.Some? ==>
      && choice.value.reason == choice'.value.reason
      && choice.value.failedMount == choice'.value.failedMount
      && choice.value.source == choice'.value.source
      && choice.value.sandbox.id == choice'.value.sandbox.id
  {
    hide HasLiveSchedulableNode, GoodTarget, MustLeave;
    SameNodesSameVerdict(nodes, nodes', now, exclude);
    if choice.Some? && choice'.Some? {
      ReasonUnique(nodes, sb, now, choice.value.reason, choice'.value.reason);
    }
  }

  /** What a decision says apart from the target it picked. */
  function KeyOf(d: Decision): (string, Reason, bool) {
    (d.sandbox.id, d.reason, d.failedMount)
  }

  lemma KeysIncluded(
      nodes: seq<Node>, sandboxes: seq<Sandbox>, choices: seq<Option<Decision>>,
      nodes': seq<Node>, sandboxes': seq<Sandbox>, choices': seq<Option<Decision>>,
      now: Time, exclude: set<string>, d: Decision) returns (d': Decision)
    requires SameNodes(nodes, nodes')
    requires forall sb :: sb in sandboxes ==> sb in sandboxes'
    requires |choices| == |sandboxes| && AllFit(nodes, sandboxes, now, exclude, choices)
    requires |choices'| == |sandboxes'| && AllFit(nodes', sandboxes', now, exclude, choices')
    requires Some(d) in choices
    ensures Some(d') in choices' && KeyOf(d') == KeyOf(d)
  {
    hide Fits;
    var i :| 0 <= i < |choices| && choices[i] == Some(d);
    assert sandboxes[i] in sandboxes;
    var j :| 0 <= j < |sandboxes'| && sandboxes'[j] == sandboxes[i];
    SameChoiceKind(nodes, Working(sandboxes, choices[..i]), nodes', Working(sandboxes', choices'[..j]),
                   sandboxes[i], now, exclude, choices[i], choices'[j]);
    d' := choices'[j].value;
    assert choices'[j] == Some(d');
  }

  /** The set of (sandbox, reason, failed mount) triples is independent of the order of both lists. */
  lemma OrderIndependent(
      nodes: seq<Node>, sandboxes: seq<Sandbox>, nodes': seq<Node>, sandboxes': seq<Sandbox>,
      now: Time, exclude: set<string>)
    requires SameNodes(nodes, nodes')
    requires forall sb :: sb in sandboxes <==> sb in sandboxes'
    ensures (set d | d in PlanVacate(nodes, sandboxes, now, exclude) :: KeyOf(d))
         == (set d | d in PlanVacate(nodes', sandboxes', now, exclude) :: KeyOf(d))
  {
    hide Choices, Fits, AllFit, KeyOf, SameNodes;
    var choices := Choices(nodes, sandboxes, now, exclude, |sandboxes|);
    var choices' := Choices(nodes', sandboxes', now, exclude, |sandboxes'|);
    UniqueOfSame(nodes, nodes');
    ChoicesFit(nodes, sandboxes, now, exclude, |sandboxes|);
    ChoicesFit(nodes', sandboxes', now, exclude, |sandboxes'|);
    DecidedMeaning(choices);
    DecidedMeaning(choices');
    forall d | d in Decided(choices)
      ensures exists d' :: d' in Decided(choices') && KeyOf(d') == KeyOf(d)
    {
      var d' := KeysIncluded(nodes, sandboxes, choices, nodes', sandboxes', choices', now, exclude, d);
    }
    forall d | d in Decided(choices')
      ensures exists d' :: d' in Decided(choices) && KeyOf(d') == KeyOf(d)
    {
      var d' := KeysIncluded(nodes', sandboxes', choices', nodes, sandboxes, choices, now, exclude, d);
    }
  }

  lemma UniqueOfSame(nodes: seq<Node>, nodes': seq<Node>)
    requires SameNodes(nodes, nodes')
    ensures UniqueNodes(nodes) && UniqueNodes(nodes') && SameNodes(nodes', nodes)
  {
  }

  // ---------------------------------------------------------------- fixpoint

  /** Planning again for a sandbox as the first plan left it: nothing, or the identical failure. */
  lemma SecondChoice(
      nodes: seq<Node>, working: seq<Sandbox>, sb: Sandbox, now: Time, exclude: set<string>, choice: Option<Decision>,
      nodes': seq<Node>, working': seq<Sandbox>, exclude': set<string>, choice': Option<Decision>)
    requires SameNodes(nodes, nodes') && exclude <= exclude'
    requires Fits(nodes, working, sb, now, exclude, choice)
    requires var after := if choice.Some? then choice.value.sandbox else sb;
      Fits(nodes', working', after, now, exclude', choice')
    ensures choice' == if choice.Some? && choice.value.failedMount then choice else None
  {
    hide MovedAway, BindsHost, IsFirstLeastLoaded, MustLeave, HasLiveSchedulableNode, FailedInPlace;
    SameNodesSameVerdict(nodes, nodes', now, exclude');
    FewerExclusions(nodes, now, exclude, exclude');
    if choice.Some? && !choice.value.failedMount {
      var after := choice.value.sandbox;
      forall r ensures !MustLeave(nodes, after, now, r) {
        LiveTargetIsSafe(nodes, now, exclude, after.nodeID, after, r);
      }
    } else if choice.Some? {
      FailureRepeats(nodes, sb, choice.value.sandbox, now, choice.value.reason);
      if choice'.Some? {
        ReasonUnique(nodes, choice.value.sandbox, now, choice.value.reason, choice'.value.reason);
      }
    }
  }

  lemma FewerExclusions(nodes: seq<Node>, now: Time, exclude: set<string>, exclude': set<string>)
    requires exclude <= exclude'
    ensures HasLiveSchedulableNode(nodes, now, exclude') ==> HasLiveSchedulableNode(nodes, now, exclude)
  {
    if HasLiveSchedulableNode(nodes, now, exclude') {
      var n :| n in nodes && Candidate(n, now, exclude', true);
      assert Candidate(n, now, exclude, true);
    }
  }

  lemma FailureRepeats(nodes: seq<Node>, sb: Sandbox, failed: Sandbox, now: Time, r: Reason)
    requires MustLeave(nodes, sb, now, r) && FailedInPlace(sb, failed, r, now)
    ensures MustLeave(nodes, failed, now, r)
    ensures forall again :: FailedInPlace(failed, again, r, now) ==> again == failed
    ensures failed.spec == sb.spec && failed.nodeID == sb.nodeID
  {
  }

  /** Fixpoint.  Planning again on the planned records, with the same nodes and time but any list
      orders and any larger exclusions, reassigns nothing: it changes no record, and every decision
      it still emits is one of the first plan's host-mount failures, unchanged. */
  lemma Fixpoint(
      nodes: seq<Node>, sandboxes: seq<Sandbox>, now: Time, exclude: set<string>,
      nodes': seq<Node>, sandboxes': seq<Sandbox>, exclude': set<string>)
    requires SameNodes(nodes, nodes') && exclude <= exclude'
    requires forall sb :: sb in sandboxes' <==> sb in Planned(nodes, sandboxes, now, exclude)
    ensures Planned(nodes', sandboxes', now, exclude') == sandboxes'
    ensures forall d ::
      d in PlanVacate(nodes', sandboxes', now, exclude') <==>
      d in PlanVacate(nodes, sandboxes, now, exclude) && d.failedMount
  {
    hide Choices, Fits, AllFit, SameNodes;
    var choices := Choices(nodes, sandboxes, now, exclude, |sandboxes|);
    var choices' := Choices(nodes', sandboxes', now, exclude', |sandboxes'|);
    UniqueOfSame(nodes, nodes');
    ChoicesFit(nodes, sandboxes, now, exclude, |sandboxes|);
    ChoicesFit(nodes', sandboxes', now, exclude', |sandboxes'|);
    DecidedMeaning(choices);
    DecidedMeaning(choices');
    FixpointOf(nodes, sandboxes, choices, now, exclude, nodes', sandboxes', choices', exclude');
  }

  lemma FixpointOf(
      nodes: seq<Node>, sandboxes: seq<Sandbox>, choices: seq<Option<Decision>>, now: Time, exclude: set<string>,
      nodes': seq<Node>, sandboxes': seq<Sandbox>, choices': seq<Option<Decision>>, exclude': set<string>)
    requires SameNodes(nodes, nodes') && exclude <= exclude'
    requires |choices| == |sandboxes| && AllFit(nodes, sandboxes, now, exclude, choices)
    requires |choices'| == |sandboxes'| && AllFit(nodes', sandboxes', now, exclude', choices')
    requires forall sb :: sb in sandboxes' <==> sb in Working(sandboxes, choices)
    ensures Working(sandboxes', choices') == sandboxes'
    ensures forall d :: Some(d) in choices' <==> Some(d) in choices && d.failedMount
  {
    hide Fits;
    var planned := Working(sandboxes, choices);
    forall i, j | 0 <= i < |planned| && 0 <= j < |sandboxes'| && sandboxes'[j] == planned[i]
      ensures choices'[j] == if choices[i].Some? && choices[i].value.failedMount then choices[i] else None
    {
      SecondChoice(nodes, Working(sandboxes, choices[..i]), sandboxes[i], now, exclude, choices[i],
                   nodes', Working(sandboxes', choices'[..j]), exclude', choices'[j]);
    }
    hide AllFit, SameNodes;
    forall j | 0 <= j < |sandboxes'|
      ensures Working(sandboxes', choices')[j] == sandboxes'[j]
      ensures choices'[j].Some? ==> choices'[j].value.failedMount && choices'[j] in choices
    {
      assert sandboxes'[j] in sandboxes';
      var i :| 0 <= i < |planned| && planned[i] == sandboxes'[j];
    }
    forall i | 0 <= i < |choices| && choices[i].Some? && choices[i].value.failedMount
      ensures choices[i] in choices'
    {
      assert planned[i] in sandboxes';
      var j :| 0 <= j < |sandboxes'| && sandboxes'[j] == planned[i];
    }
  }
}
