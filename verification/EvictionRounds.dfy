/** Eviction rounds at any point of a run: when no sandbox is left behind, and that a second round
    right after the first changes nothing. */
module EvictionRounds {
  import opened Records
  import opened Seqs
  import opened Control
  import opened Protocol
  import opened ProtocolSafety
  import Scheduler
  import Vacate
  import VacatePlan
  import Eviction
  import Fsm
  import FsmIndex
  import Quarantine

  // ---------------------------------------------------------------- evacuation

  /** The sandbox runs on a node that is gone, heartbeat-stale or draining. */
  ghost predicate Stranded(nodes: map<string, Node>, now: Time, sb: Sandbox) {
    && sb.desired.DesiredRunning? && sb.nodeID != ""
    && (sb.nodeID !in nodes
        || Scheduler.Silent(nodes[sb.nodeID], now)
        || nodes[sb.nodeID].availability.Drain?)
  }

  lemma StrandedMustLeave(nodes: map<string, Node>, list: seq<Node>, now: Time, sb: Sandbox)
    requires forall n :: n in list <==> n.id in nodes && nodes[n.id] == n
    requires forall id :: id in nodes ==> nodes[id].id == id
    ensures Stranded(nodes, now, sb) ==>
      || Vacate.MustLeave(list, sb, now, Vacate.ReasonGone)
      || Vacate.MustLeave(list, sb, now, Vacate.ReasonHeartbeat)
      || Vacate.MustLeave(list, sb, now, Vacate.ReasonDrain)
  {
    if sb.nodeID in nodes {
      assert nodes[sb.nodeID] in list;
    }
  }

  lemma LiveTargetIsListed(nodes: map<string, Node>, list: seq<Node>, now: Time, held: set<string>)
    requires forall n :: n in list <==> n.id in nodes && nodes[n.id] == n
    requires forall id :: id in nodes ==> nodes[id].id == id
    ensures Scheduler.HasLiveSchedulableNode(list, now, held) <==>
      exists id :: Eviction.LiveTarget(nodes, id, now, held)
  {
    hide Scheduler.Candidate;
    if n :| n in list && Scheduler.Candidate(n, now, held, true) {
      Scheduler.CandidateMeaning(n, now, held, true);
      assert Eviction.LiveTarget(nodes, n.id, now, held);
    }
    if id :| Eviction.LiveTarget(nodes, id, now, held) {
      Scheduler.CandidateMeaning(nodes[id], now, held, true);
      assert nodes[id] in list;
    }
  }

  /** The store after an eviction round whose saves were all committed, read against the plan. */
  lemma PlannedRoundStrandsNobody(
      nodes: map<string, Node>, before: map<string, Sandbox>, after: map<string, Sandbox>, now: Time, held: set<string>,
      nodeKeys: seq<string>, sandboxKeys: seq<string>, id: string)
    requires IsKeyOrder(nodeKeys, nodes.Keys) && IsKeyOrder(sandboxKeys, before.Keys) && after.Keys == before.Keys
    requires forall id :: id in nodes ==> nodes[id].id == id
    requires forall k :: k in nodeKeys ==> k in nodes
    requires forall k :: k in sandboxKeys ==> k in before
    requires Listing(sandboxKeys, after)
          == Vacate.Planned(Listing(nodeKeys, nodes), Listing(sandboxKeys, before), now, held)
    requires id in after
    ensures if exists t :: Eviction.LiveTarget(nodes, t, now, held)
      then !after[id].spec.HasHostMounts() ==> !Stranded(nodes, now, after[id])
      else after[id].nodeID == before[id].nodeID
  {
    hide Vacate.Planned, Vacate.PlanVacate, Vacate.MustLeave, Stranded, Eviction.LiveTarget;
    hide Scheduler.HasLiveSchedulableNode;
    Eviction.ListingIsUnique(nodeKeys, nodes, (n: Node) => n.id);
    OrderMembers(sandboxKeys, before.Keys);
    var list := Listing(nodeKeys, nodes);
    LiveTargetIsListed(nodes, list, now, held);
    VacatePlan.AllOrNothing(list, Listing(sandboxKeys, before), now, held);
    var i := IndexOf(sandboxKeys, id);
    assert Listing(sandboxKeys, after)[i] == after[id] && Listing(sandboxKeys, before)[i] == before[id];
    StrandedMustLeave(nodes, list, now, after[id]);
  }

  ghost function IndexOf(keys: seq<string>, key: string): (i: nat)
    requires key in keys
    ensures i < |keys| && keys[i] == key
  {
    var i :| 0 <= i < |keys| && keys[i] == key;
    i
  }

  /** A round that reads the store in these orders. */
  ghost predicate IsRound(w: World, step: Step) {
    step.Evict? && NodeOrder(w, step.nodeKeys) && SandboxOrder(w, step.sandboxKeys)
  }

  ghost predicate AllCommitted(step: Step)
    requires step.Evict?
  {
    forall n: nat :: step.outcome(n) == Confirmed
  }

  /** At any point of any run, an eviction round whose saves are all committed leaves no sandbox
      without host mounts stranded, provided one live, schedulable node is not held off; if there is
      none, it moves nothing. */
  lemma EvictionLeavesNobodyStranded(t: Trace, k: nat)
    requires IsRun(t) && k < |t| && IsRound(At(t, k), t[k].step) && AllCommitted(t[k].step)
    ensures var w, records := At(t, k), At(t, k + 1).fsm.sandboxes.records;
      if exists id :: Eviction.LiveTarget(w.fsm.nodes, id, w.now, w.quarantine.Keys)
      then forall id :: id in records && !records[id].spec.HasHostMounts() ==>
        !Stranded(w.fsm.nodes, w.now, records[id])
      else forall id :: id in records && id in w.fsm.sandboxes.records ==>
        records[id].nodeID == w.fsm.sandboxes.records[id].nodeID
  {
    hide At, Do, Act, EventsOf, SaveAll, Decisions, Safe, Logged, Stranded, Eviction.LiveTarget, Vacate.Planned;
    var w, step := At(t, k), t[k].step;
    RunStep(t, k);
    SameStoreAndQuarantine(w, step);
    RunIsSafe(t, k);
    SafeStore(w);
    LoggedIsSound(w.fsm);
    EvictionActs(w, step);
    var commits := CommitsOf(w, step);
    Eviction.EvictionRealisesPlan(w.fsm, w.quarantine, w.now, step.nodeKeys, step.sandboxKeys, commits);
    var records := Act(w, step).fsm.sandboxes.records;
    forall id | id in records
      ensures if exists x :: Eviction.LiveTarget(w.fsm.nodes, x, w.now, w.quarantine.Keys)
        then !records[id].spec.HasHostMounts() ==> !Stranded(w.fsm.nodes, w.now, records[id])
        else records[id].nodeID == w.fsm.sandboxes.records[id].nodeID
    {
      PlannedRoundStrandsNobody(w.fsm.nodes, w.fsm.sandboxes.records, records, w.now, w.quarantine.Keys,
                                step.nodeKeys, step.sandboxKeys, id);
    }
  }

  /** What becomes of the saves of a round. */
  ghost function CommitsOf(w: World, step: Step): (commits: seq<Commit>)
    requires IsRound(w, step)
  {
    Outcomes(step.outcome, |Decisions(w.fsm, w.quarantine.Keys, w.now, step.nodeKeys, step.sandboxKeys)|)
  }

  lemma EvictionActs(w: World, step: Step)
    requires IsRound(w, step)
    ensures var decisions := Decisions(w.fsm, w.quarantine.Keys, w.now, step.nodeKeys, step.sandboxKeys);
      && |CommitsOf(w, step)| == |decisions|
      && Act(w, step).fsm == SaveAll(w.fsm, w.quarantine, decisions, CommitsOf(w, step)).0
      && Act(w, step).quarantine == SaveAll(w.fsm, w.quarantine, decisions, CommitsOf(w, step)).1
    ensures Act(w, step).now == w.now && w.quarantine.Keys <= Act(w, step).quarantine.Keys
    ensures AllCommitted(step) ==> forall c :: c in CommitsOf(w, step) ==> c.Confirmed?
  {
    hide SaveAll, Decisions, Eviction.Marks;
    var decisions := Decisions(w.fsm, w.quarantine.Keys, w.now, step.nodeKeys, step.sandboxKeys);
    Eviction.SaveAllMarks(w.fsm, w.quarantine, decisions, CommitsOf(w, step));
    MarksOnlyAdd(w.quarantine, Eviction.Marks(w.fsm, decisions, CommitsOf(w, step)));
  }

  // ---------------------------------------------------------------- what a round does to a sandbox

  /** The store's view of a list of its nodes. */
  ghost predicate ListsNodes(list: seq<Node>, nodes: map<string, Node>) {
    && (forall n :: n in list <==> n.id in nodes && nodes[n.id] == n)
    && forall id :: id in nodes ==> nodes[id].id == id
  }

  lemma LeavesMeaning(nodes: map<string, Node>, list: seq<Node>, now: Time, sb: Sandbox)
    requires ListsNodes(list, nodes) && sb.desired == DesiredRunning && sb.nodeID != ""
    ensures forall r :: Vacate.MustLeave(list, sb, now, r) <==> Eviction.Leaves(nodes, sb.nodeID, now, r)
  {
    if sb.nodeID in nodes {
      assert nodes[sb.nodeID] in list;
    }
  }

  /** What becomes of a sandbox in a round, read off the state before the round and the record after
      it. */
  ghost predicate RoundOutcome(w: World, before: Sandbox, after: Sandbox) {
    if before.desired != DesiredRunning || before.nodeID == "" then after == before
    else
      && ((forall r :: !Eviction.Leaves(w.fsm.nodes, before.nodeID, w.now, r)) ==> after == before)
      && forall r :: Eviction.Leaves(w.fsm.nodes, before.nodeID, w.now, r) ==>
           if Vacate.BindsHost(before.spec) then
             if r == Vacate.ReasonDrain then after == before else Vacate.FailedInPlace(before, after, r, w.now)
           else if exists id :: Eviction.LiveTarget(w.fsm.nodes, id, w.now, w.quarantine.Keys) then
             && Vacate.MovedAway(before, after, r, w.now)
             && Eviction.LiveTarget(w.fsm.nodes, after.nodeID, w.now, w.quarantine.Keys)
           else after == before
  }

  lemma PlannedOutcome(
      w: World, list: seq<Node>, sandboxes: seq<Sandbox>, i: nat)
    requires ListsNodes(list, w.fsm.nodes) && Vacate.UniqueNodes(list) && i < |sandboxes|
    ensures RoundOutcome(w, sandboxes[i], Vacate.Planned(list, sandboxes, w.now, w.quarantine.Keys)[i])
  {
    hide Vacate.Planned, Vacate.MustLeave, Vacate.FailedInPlace, Vacate.MovedAway, Vacate.BindsHost;
    hide Scheduler.Open, Scheduler.Fresh, Eviction.Leaves, Vacate.UniqueNodes;
    var before := sandboxes[i];
    VacatePlan.PlannedReads(list, sandboxes, w.now, w.quarantine.Keys, i);
    TargetsMeaning(w, list);
    if before.desired != DesiredRunning || before.nodeID == "" {
      Vacate.NoReasonToLeave(list, before, w.now);
    } else {
      LeavesMeaning(w.fsm.nodes, list, w.now, before);
    }
  }

  lemma TargetsMeaning(w: World, list: seq<Node>)
    requires ListsNodes(list, w.fsm.nodes)
    ensures (exists n :: n in list && Scheduler.Open(n, w.quarantine.Keys) && Scheduler.Fresh(n, w.now))
      <==> exists id :: Eviction.LiveTarget(w.fsm.nodes, id, w.now, w.quarantine.Keys)
    ensures forall id ::
      (exists n :: n in list && n.id == id && Scheduler.Open(n, w.quarantine.Keys) && Scheduler.Fresh(n, w.now))
      <==> Eviction.LiveTarget(w.fsm.nodes, id, w.now, w.quarantine.Keys)
  {
    hide Scheduler.Open, Scheduler.Fresh;
    forall id | Eviction.LiveTarget(w.fsm.nodes, id, w.now, w.quarantine.Keys)
      ensures w.fsm.nodes[id] in list && w.fsm.nodes[id].id == id
    {
    }
    forall n | n in list && Scheduler.Open(n, w.quarantine.Keys) && Scheduler.Fresh(n, w.now)
      ensures Eviction.LiveTarget(w.fsm.nodes, n.id, w.now, w.quarantine.Keys)
    {
    }
  }

  /** What a round whose saves are all committed leaves of every sandbox, in terms of the store before it:
      a running sandbox on a node that is gone or silent, and binds the host, has failed where it is; one
      on a gone, silent or draining node that does not bind it has moved to an open, recently heard node
      outside the quarantine, if there is one; every other sandbox is as it was. */
  lemma CommittedRound(t: Trace, k: nat, id: string)
    requires IsRun(t) && k < |t| && IsRound(At(t, k), t[k].step) && AllCommitted(t[k].step)
    requires id in At(t, k).fsm.sandboxes.records
    ensures id in At(t, k + 1).fsm.sandboxes.records
    ensures RoundOutcome(At(t, k), At(t, k).fsm.sandboxes.records[id], At(t, k + 1).fsm.sandboxes.records[id])
  {
    hide At, Do, Act, EventsOf, SaveAll, Decisions, Safe, Logged, Vacate.Planned, RoundOutcome;
    var w, step := At(t, k), t[k].step;
    RunStep(t, k);
    SameStoreAndQuarantine(w, step);
    RunIsSafe(t, k);
    SafeStore(w);
    LoggedIsSound(w.fsm);
    EvictionActs(w, step);
    Eviction.EvictionRealisesPlan(w.fsm, w.quarantine, w.now, step.nodeKeys, step.sandboxKeys, CommitsOf(w, step));
    hide FsmIndex.NamesClaimed, Eviction.AllFiled;
    NodeListing(step.nodeKeys, w.fsm.nodes);
    OrderMembers(step.sandboxKeys, w.fsm.sandboxes.records.Keys);
    var i := IndexOf(step.sandboxKeys, id);
    var list, sandboxes := Listing(step.nodeKeys, w.fsm.nodes), Listing(step.sandboxKeys, w.fsm.sandboxes.records);
    PlannedOutcome(w, list, sandboxes, i);
    assert Listing(step.sandboxKeys, Act(w, step).fsm.sandboxes.records)[i] == Act(w, step).fsm.sandboxes.records[id];
  }

  /** Whatever becomes of its saves, a round leaves every sandbox as it was or as that. */
  lemma AnyRound(t: Trace, k: nat, id: string)
    requires IsRun(t) && k < |t| && t[k].step.Evict? && id in At(t, k).fsm.sandboxes.records
    ensures id in At(t, k + 1).fsm.sandboxes.records
    ensures
      var w := At(t, k);
      var before, after := w.fsm.sandboxes.records[id], At(t, k + 1).fsm.sandboxes.records[id];
      after == before || exists r :: Evicted(w, before, after, r)
  {
    hide At, Do, Act, EventsOf, SaveAll, Decisions, Safe, Logged, Evicted, Eviction.FitsStore, Eviction.Renames;
    var w, step := At(t, k), t[k].step;
    RunStep(t, k);
    SameStoreAndQuarantine(w, step);
    RunIsSafe(t, k);
    SafeStore(w);
    LoggedIsSound(w.fsm);
    if IsRound(w, step) {
      EvictionActs(w, step);
      var decisions := Decisions(w.fsm, w.quarantine.Keys, w.now, step.nodeKeys, step.sandboxKeys);
      Eviction.DecisionsFitStore(w.fsm, w.quarantine.Keys, w.now, step.nodeKeys, step.sandboxKeys);
      hide FsmIndex.NamesClaimed, FsmIndex.Keyed;
      forall d | d in decisions
        ensures d.sandbox.id in w.fsm.sandboxes.records && Eviction.Filed(d.sandbox) == d.sandbox
        ensures Evicted(w, w.fsm.sandboxes.records[d.sandbox.id], d.sandbox, d.reason)
      {
        Eviction.FittingRenames(w.fsm, w.quarantine.Keys, w.now, d);
        RenamedIsFiled(w.fsm, d.sandbox);
        FittingIsEvicted(w, d);
      }
      Eviction.SaveAllSavesSome(w.fsm, w.quarantine, decisions, CommitsOf(w, step));
    } else {
      NoRound(w, step);
    }
  }

  ghost predicate Evicted(w: World, before: Sandbox, after: Sandbox, reason: Vacate.Reason) {
    && before.desired == DesiredRunning && before.nodeID != ""
    && Eviction.Leaves(w.fsm.nodes, before.nodeID, w.now, reason)
    && if Vacate.BindsHost(before.spec)
       then reason != Vacate.ReasonDrain && Vacate.FailedInPlace(before, after, reason, w.now)
       else
         && Vacate.MovedAway(before, after, reason, w.now)
         && Eviction.LiveTarget(w.fsm.nodes, after.nodeID, w.now, w.quarantine.Keys)
  }

  lemma FittingIsEvicted(w: World, d: Vacate.Decision)
    requires Eviction.FitsStore(w.fsm, w.quarantine.Keys, w.now, d)
    ensures d.sandbox.id in w.fsm.sandboxes.records
    ensures Evicted(w, w.fsm.sandboxes.records[d.sandbox.id], d.sandbox, d.reason)
    ensures d.source == w.fsm.sandboxes.records[d.sandbox.id].nodeID != ""
  {
    hide Eviction.Leaves, Vacate.BindsHost, Vacate.FailedInPlace, Vacate.MovedAway, Eviction.LiveTarget;
  }

  lemma RenamedIsFiled(fsm: Fsm.State, sb: Sandbox)
    requires Eviction.Renames(fsm, sb)
    ensures Eviction.Filed(sb) == sb
  {
  }

  lemma NoRound(w: World, step: Step)
    requires step.Evict? && !IsRound(w, step)
    ensures Act(w, step).fsm == w.fsm
  {
    hide IsKeyOrder, SaveAll, Decisions, ActBeat, ActOffStore;
  }

  /** After such a round every silent node that lost a sandbox, or had one fail, is held off, from its
      next heartbeat on counting from zero. */
  lemma SilentSourcesAreHeld(t: Trace, k: nat, id: string)
    requires IsRun(t) && k < |t| && IsRound(At(t, k), t[k].step) && AllCommitted(t[k].step)
    requires id in At(t, k).fsm.sandboxes.records && id in At(t, k + 1).fsm.sandboxes.records
    requires At(t, k + 1).fsm.sandboxes.records[id] != At(t, k).fsm.sandboxes.records[id]
    requires
      var w := At(t, k);
      var nodeID := w.fsm.sandboxes.records[id].nodeID;
      nodeID in w.fsm.nodes && Scheduler.Silent(w.fsm.nodes[nodeID], w.now)
    ensures
      var nodeID, q := At(t, k).fsm.sandboxes.records[id].nodeID, At(t, k + 1).quarantine;
      nodeID in q && q[nodeID] == 0
  {
    hide At, Do, Act, EventsOf, SaveAll, Decisions, Safe, Logged, Eviction.FitsStore, Eviction.Renames;
    var w, step := At(t, k), t[k].step;
    RunStep(t, k);
    SameStoreAndQuarantine(w, step);
    RunIsSafe(t, k);
    SafeStore(w);
    LoggedIsSound(w.fsm);
    EvictionActs(w, step);
    var decisions := Decisions(w.fsm, w.quarantine.Keys, w.now, step.nodeKeys, step.sandboxKeys);
    Eviction.DecisionsFitStore(w.fsm, w.quarantine.Keys, w.now, step.nodeKeys, step.sandboxKeys);
    forall d | d in decisions
      ensures d.sandbox.id in w.fsm.sandboxes.records && Eviction.Renames(w.fsm, d.sandbox) && d.source != ""
      ensures d.source == w.fsm.sandboxes.records[d.sandbox.id].nodeID
      ensures Evicted(w, w.fsm.sandboxes.records[d.sandbox.id], d.sandbox, d.reason)
    {
      Eviction.FittingRenames(w.fsm, w.quarantine.Keys, w.now, d);
      FittingIsEvicted(w, d);
    }
    hide FsmIndex.NamesClaimed, FsmIndex.Keyed, Eviction.AllFiled;
    Eviction.SaveAllSavesSome(w.fsm, w.quarantine, decisions, CommitsOf(w, step));
    Eviction.CommittedSourcesAreMarked(w.fsm, w.quarantine, decisions, CommitsOf(w, step));
    var d :| d in decisions && d.sandbox.id == id;
  }

  // ---------------------------------------------------------------- a second round

  lemma {:induction false} MarksOnlyAdd(q: Quarantine.Counts, events: seq<Quarantine.Event>)
    requires forall e :: e in events ==> e.Marked?
    ensures q.Keys <= Quarantine.Run(q, events).Keys
  {
    if |events| > 0 {
      assert events == events[..|events| - 1] + [events[|events| - 1]];
      MarksOnlyAdd(q, events[..|events| - 1]);
    }
  }

  /** Planning again on what a plan left in the store asks only for records the store already has. */
  lemma SecondPlanAsksForNothing(
      nodes: map<string, Node>, before: map<string, Sandbox>, after: map<string, Sandbox>, now: Time,
      held: set<string>, held': set<string>,
      nodeKeys: seq<string>, sandboxKeys: seq<string>, nodeKeys': seq<string>, sandboxKeys': seq<string>)
    requires IsKeyOrder(nodeKeys, nodes.Keys) && IsKeyOrder(nodeKeys', nodes.Keys)
    requires IsKeyOrder(sandboxKeys, before.Keys) && IsKeyOrder(sandboxKeys', after.Keys) && after.Keys == before.Keys
    requires (forall id :: id in nodes ==> nodes[id].id == id) && forall id :: id in after ==> after[id].id == id
    requires (forall k :: k in nodeKeys ==> k in nodes) && forall k :: k in nodeKeys' ==> k in nodes
    requires (forall k :: k in sandboxKeys ==> k in before) && forall k :: k in sandboxKeys' ==> k in after
    requires held <= held'
    requires Listing(sandboxKeys, after)
          == Vacate.Planned(Listing(nodeKeys, nodes), Listing(sandboxKeys, before), now, held)
    ensures forall d :: d in Vacate.PlanVacate(Listing(nodeKeys', nodes), Listing(sandboxKeys', after), now, held') ==>
      d.sandbox.id in after && after[d.sandbox.id] == d.sandbox
  {
    hide Vacate.Planned, Vacate.PlanVacate, Vacate.UniqueNodes, IsKeyOrder, Listing;
    NodeListing(nodeKeys, nodes);
    NodeListing(nodeKeys', nodes);
    SandboxListing(sandboxKeys, after);
    SandboxListing(sandboxKeys', after);
    var list, list' := Listing(nodeKeys, nodes), Listing(nodeKeys', nodes);
    var sandboxes, sandboxes' := Listing(sandboxKeys, before), Listing(sandboxKeys', after);
    assert forall sb :: sb in sandboxes' <==> sb in Listing(sandboxKeys, after);
    SecondPlan(list, sandboxes, now, held, list', sandboxes', held', after);
  }

  lemma SecondPlan(
      nodes: seq<Node>, sandboxes: seq<Sandbox>, now: Time, held: set<string>,
      nodes': seq<Node>, sandboxes': seq<Sandbox>, held': set<string>, records: map<string, Sandbox>)
    requires VacatePlan.SameNodes(nodes, nodes') && held <= held' && Vacate.UniqueSandboxes(sandboxes')
    requires forall sb :: sb in sandboxes' <==> sb in Vacate.Planned(nodes, sandboxes, now, held)
    requires forall sb :: sb in sandboxes' ==> sb.id in records && records[sb.id] == sb
    ensures forall d :: d in Vacate.PlanVacate(nodes', sandboxes', now, held') ==>
      d.sandbox.id in records && records[d.sandbox.id] == d.sandbox
  {
    hide Vacate.Planned, Vacate.PlanVacate, Vacate.UniqueSandboxes, Vacate.Choices;
    VacatePlan.Fixpoint(nodes, sandboxes, now, held, nodes', sandboxes', held');
    VacatePlan.UniqueOfSame(nodes, nodes');
    PlannedAreFiled(nodes', sandboxes', now, held', records);
  }

  lemma NodeListing(keys: seq<string>, nodes: map<string, Node>)
    requires IsKeyOrder(keys, nodes.Keys) && forall id :: id in nodes ==> nodes[id].id == id
    ensures forall k :: k in keys ==> k in nodes
    ensures Vacate.UniqueNodes(Listing(keys, nodes))
    ensures forall n :: n in Listing(keys, nodes) <==> n.id in nodes && nodes[n.id] == n
  {
    Eviction.ListingIsUnique(keys, nodes, (n: Node) => n.id);
  }

  lemma SandboxListing(keys: seq<string>, records: map<string, Sandbox>)
    requires IsKeyOrder(keys, records.Keys) && forall id :: id in records ==> records[id].id == id
    ensures forall k :: k in keys ==> k in records
    ensures Vacate.UniqueSandboxes(Listing(keys, records))
    ensures forall sb :: sb in Listing(keys, records) <==> sb.id in records && records[sb.id] == sb
  {
    Eviction.ListingIsUnique(keys, records, (sb: Sandbox) => sb.id);
  }

  lemma PlannedAreFiled(
      nodes: seq<Node>, sandboxes: seq<Sandbox>, now: Time, held: set<string>, records: map<string, Sandbox>)
    requires Vacate.Planned(nodes, sandboxes, now, held) == sandboxes
    requires forall sb :: sb in sandboxes ==> sb.id in records && records[sb.id] == sb
    requires Vacate.UniqueNodes(nodes) && Vacate.UniqueSandboxes(sandboxes)
    ensures forall d :: d in Vacate.PlanVacate(nodes, sandboxes, now, held) ==>
      d.sandbox.id in records && records[d.sandbox.id] == d.sandbox
  {
    hide Vacate.Choices, Vacate.Decided, Vacate.UniqueNodes, Vacate.UniqueSandboxes;
    VacatePlan.OneDecisionEach(nodes, sandboxes, now, held);
    var choices := Vacate.Choices(nodes, sandboxes, now, held, |sandboxes|);
    forall d | d in Vacate.PlanVacate(nodes, sandboxes, now, held)
      ensures d.sandbox.id in records && records[d.sandbox.id] == d.sandbox
    {
      var i :| 0 <= i < |sandboxes| && VacatePlan.FiledAt(sandboxes, choices, d, i);
      assert sandboxes[i] in sandboxes;
    }
  }

  /** At any point of any run: once the saves of an eviction round are committed, a second round right
      after it, whatever its list orders and whatever becomes of its saves, leaves every stored sandbox
      exactly as it is. */
  lemma SecondRoundChangesNothing(t: Trace, k: nat)
    requires IsRun(t) && k + 1 < |t|
    requires IsRound(At(t, k), t[k].step) && AllCommitted(t[k].step)
    requires IsRound(At(t, k + 1), t[k + 1].step)
    ensures At(t, k + 2).fsm.sandboxes.records == At(t, k + 1).fsm.sandboxes.records
  {
    hide At, Do, Act, EventsOf, SaveAll, Decisions, IsKeyOrder, Safe, Logged, StoreOwned;
    hide FsmIndex.Keyed, FsmIndex.NamesClaimed, Eviction.AllFiled, AllCommitted;
    var w, w', first, second := At(t, k), At(t, k + 1), t[k].step, t[k + 1].step;
    RunStep(t, k);
    RunStep(t, k + 1);
    RunIsSafe(t, k);
    RunIsSafe(t, k + 1);
    SafeStore(w');
    LoggedIsSound(w'.fsm);
    SecondDecisions(w, first, second);
    var decisions := Decisions(w'.fsm, w'.quarantine.Keys, w'.now, second.nodeKeys, second.sandboxKeys);
    EvictionActs(w', second);
    Eviction.SaveAllSavesSome(w'.fsm, w'.quarantine, decisions, CommitsOf(w', second));
    SameStoreAndQuarantine(w', second);
    StoredAreFiled(w'.fsm);
  }

  lemma StoredAreFiled(fsm: Fsm.State)
    requires Eviction.AllFiled(fsm)
    ensures forall id :: id in fsm.sandboxes.records ==>
      Eviction.Filed(fsm.sandboxes.records[id]) == fsm.sandboxes.records[id]
  {
  }

  lemma SecondDecisions(w: World, first: Step, second: Step)
    requires Safe(w) && Safe(Do(w, first))
    requires IsRound(w, first) && AllCommitted(first)
    requires IsRound(Do(w, first), second)
    ensures var w' := Do(w, first);
      forall d :: d in Decisions(w'.fsm, w'.quarantine.Keys, w'.now, second.nodeKeys, second.sandboxKeys) ==>
        d.sandbox.id in w'.fsm.sandboxes.records && w'.fsm.sandboxes.records[d.sandbox.id] == d.sandbox
  {
    hide Do, Act, SaveAll, Decisions, Safe, Logged, StoreOwned, Vacate.Planned, Vacate.PlanVacate, IsKeyOrder, Listing;
    var w' := Do(w, first);
    SameStoreAndQuarantine(w, first);
    SafeStore(w);
    SafeStore(w');
    LoggedIsSound(w.fsm);
    LoggedIsSound(w'.fsm);
    hide Eviction.AllFiled, FsmIndex.NamesClaimed;
    EvictionActs(w, first);
    Eviction.EvictionRealisesPlan(w.fsm, w.quarantine, w.now, first.nodeKeys, first.sandboxKeys,
                                  CommitsOf(w, first));
    OrderMembers(second.nodeKeys, w'.fsm.nodes.Keys);
    OrderMembers(second.sandboxKeys, w'.fsm.sandboxes.records.Keys);
    SecondPlanAsksForNothing(
      w.fsm.nodes, w.fsm.sandboxes.records, w'.fsm.sandboxes.records, w.now, w.quarantine.Keys, w'.quarantine.Keys,
      first.nodeKeys, first.sandboxKeys, second.nodeKeys, second.sandboxKeys);
    DecisionsAre(w', second);
  }

  lemma DecisionsAre(w: World, step: Step)
    requires IsRound(w, step)
    requires forall k :: k in step.nodeKeys ==> k in w.fsm.nodes
    requires forall k :: k in step.sandboxKeys ==> k in w.fsm.sandboxes.records
    ensures Decisions(w.fsm, w.quarantine.Keys, w.now, step.nodeKeys, step.sandboxKeys)
         == Vacate.PlanVacate(Listing(step.nodeKeys, w.fsm.nodes), Listing(step.sandboxKeys, w.fsm.sandboxes.records),
                              w.now, w.quarantine.Keys)
  {
    hide Vacate.PlanVacate;
  }
}
