/** The scheduler and the evacuation planner as the program runs them: loops over pointer lists that
    update a cloned working copy in place.  Ghost parameters name the values the pointers denote. */
module Planner {
  import opened Records
  import opened Seqs
  import opened Heap
  import opened Scheduler
  import opened Vacate

  // ---------------------------------------------------------------- selection

  /** Counts the sandboxes assigned to each node. */
  method CountLoads(sandboxes: seq<SandboxPtr>, ghost sbs: seq<Sandbox>) returns (counts: map<string, nat>)
    requires AreSandboxes(sandboxes, sbs)
    ensures forall id :: (if id in counts then counts[id] else 0) == Load(sbs, id)
  {
    counts := map[];
    for i := 0 to |sandboxes|
      invariant forall id :: (if id in counts then counts[id] else 0) == Load(sbs[..i], id)
    {
      var sb := sandboxes[i].v.base;
      assert SandboxOf(sandboxes[i]) == sbs[i];
      assert sbs[..i + 1][..i] == sbs[..i];
      if sb.nodeID == "" || sb.desired.DesiredRemoved? {
        continue;
      }
      counts := counts[sb.nodeID := (if sb.nodeID in counts then counts[sb.nodeID] else 0) + 1];
    }
    assert sbs[..|sandboxes|] == sbs;
  }

  /** The running best among the first `i` nodes. */
  ghost predicate Tracks(
      nodes: seq<Node>, i: nat, sandboxes: seq<Sandbox>, now: Time, exclude: set<string>, liveOnly: bool,
      best: string, count: nat)
    requires i <= |nodes|
  {
    match FirstMin(nodes[..i], sandboxes, now, exclude, liveOnly)
    case None => best == ""
    case Some(j) => best == nodes[j].id && best != "" && count == Load(sandboxes, best)
  }

  lemma TracksStep(
      nodes: seq<Node>, i: nat, sandboxes: seq<Sandbox>, now: Time, exclude: set<string>, liveOnly: bool,
      best: string, count: nat)
    requires i < |nodes| && Tracks(nodes, i, sandboxes, now, exclude, liveOnly, best, count)
    ensures
      var n := nodes[i];
      var better := best == "" || Load(sandboxes, n.id) < count;
      if Candidate(n, now, exclude, liveOnly) && better
      then Tracks(nodes, i + 1, sandboxes, now, exclude, liveOnly, n.id, Load(sandboxes, n.id))
      else Tracks(nodes, i + 1, sandboxes, now, exclude, liveOnly, best, count)
  {
    hide Load;
    assert nodes[..i + 1][..i] == nodes[..i];
  }

  /** Picks the first least loaded live candidate, else the first least loaded candidate: one pass
      counts the running sandboxes of every node, another tracks both minima at once.  As long as no
      candidate was met, the best is empty. */
  method SelectNodeOpts(
      nodes: seq<NodePtr>, sandboxes: seq<SandboxPtr>, now: Time, exclude: set<string>,
      ghost ns: seq<Node>, ghost sbs: seq<Sandbox>)
    returns (target: string)
    requires AreNodes(nodes, ns) && AreSandboxes(sandboxes, sbs)
    ensures target == SelectNode(ns, sbs, now, exclude)
  {
    hide Load, FirstMin, Tracks;
    var counts := CountLoads(sandboxes, sbs);
    var bestLive, bestLiveCount := "", 0;
    var bestAny, bestAnyCount := "", 0;
    TracksStart(ns, sbs, now, exclude);
    for i := 0 to |nodes|
      invariant Tracks(ns, i, sbs, now, exclude, true, bestLive, bestLiveCount)
      invariant Tracks(ns, i, sbs, now, exclude, false, bestAny, bestAnyCount)
    {
      var n := nodes[i].v.base;
      assert NodeOf(nodes[i]) == ns[i];
      TracksStep(ns, i, sbs, now, exclude, true, bestLive, bestLiveCount);
      TracksStep(ns, i, sbs, now, exclude, false, bestAny, bestAnyCount);
      if !Placeable(n, exclude) {
        continue;
      }
      var c := if n.id in counts then counts[n.id] else 0;
      if bestAny == "" || c < bestAnyCount {
        bestAny, bestAnyCount := n.id, c;
      }
      if n.heartbeatAt.None? {
        continue;
      }
      if now - n.heartbeatAt.value > HEARTBEAT_STALE_AFTER {
        continue;
      }
      if bestLive == "" || c < bestLiveCount {
        bestLive, bestLiveCount := n.id, c;
      }
    }
    TracksEnd(ns, sbs, now, exclude, bestLive, bestLiveCount, bestAny, bestAnyCount);
    target := if bestLive != "" then bestLive else bestAny;
  }

  lemma TracksStart(nodes: seq<Node>, sandboxes: seq<Sandbox>, now: Time, exclude: set<string>)
    ensures Tracks(nodes, 0, sandboxes, now, exclude, true, "", 0)
    ensures Tracks(nodes, 0, sandboxes, now, exclude, false, "", 0)
  {
  }

  lemma TracksEnd(
      nodes: seq<Node>, sandboxes: seq<Sandbox>, now: Time, exclude: set<string>,
      bestLive: string, bestLiveCount: nat, bestAny: string, bestAnyCount: nat)
    requires Tracks(nodes, |nodes|, sandboxes, now, exclude, true, bestLive, bestLiveCount)
    requires Tracks(nodes, |nodes|, sandboxes, now, exclude, false, bestAny, bestAnyCount)
    ensures SelectNode(nodes, sandboxes, now, exclude) == if bestLive != "" then bestLive else bestAny
  {
    hide Load;
    assert nodes[..|nodes|] == nodes;
  }

  // ---------------------------------------------------------------- the planner

  /** A decision as the program returns it; `sandbox` points into the planner's working copy. */
  datatype EvictDecision = EvictDecision(sandbox: SandboxPtr, source: string, failedMount: bool, reason: Reason)

  function DecisionOf(d: EvictDecision): Decision
    reads d.sandbox, d.sandbox.v.labels, d.sandbox.v.mounts
  {
    Decision(SandboxOf(d.sandbox), d.source, d.failedMount, d.reason)
  }

  ghost predicate AreDecisions(out: seq<EvictDecision>, ds: seq<Decision>)
    reads set d | d in out :: d.sandbox
    reads set d | d in out :: d.sandbox.v.labels
    reads set d | d in out :: d.sandbox.v.mounts
  {
    |out| == |ds| && forall i :: 0 <= i < |out| ==> DecisionOf(out[i]) == ds[i]
  }

  /** The decisions hold records of the given working copy. */
  ghost predicate MadeFrom(out: seq<EvictDecision>, working: seq<SandboxPtr>) {
    forall d :: d in out ==> d.sandbox in working
  }

  /** Clones the sandboxes and indexes the clones by identifier. */
  method CloneAll(sandboxes: seq<SandboxPtr>, ghost sbs: seq<Sandbox>)
    returns (working: seq<SandboxPtr>, byID: map<string, SandboxPtr>, ghost own: set<object>)
    requires AreSandboxes(sandboxes, sbs) && UniqueSandboxes(sbs)
    ensures fresh(own) && Within(working, own) && NoDup(working)
    ensures AreSandboxes(working, sbs)
    ensures forall i :: 0 <= i < |sbs| ==> sbs[i].id in byID && byID[sbs[i].id] == working[i]
  {
    working, byID, own := [], map[], {};
    for i := 0 to |sandboxes|
      invariant fresh(own) && Within(working, own) && NoDup(working) && |working| == i
      invariant forall k :: 0 <= k < i ==> SandboxOf(working[k]) == sbs[k]
      invariant forall k :: 0 <= k < i ==> sbs[k].id in byID && byID[sbs[k].id] == working[k]
    {
      var cp := CloneSandbox(sandboxes[i]);
      assert SandboxOf(sandboxes[i]) == sbs[i];
      assert cp.v.base.id == sbs[i].id;
      working := working + [cp];
      own := own + {cp as object, cp.v.labels as object, cp.v.mounts as object};
      byID := byID[cp.v.base.id := cp];
    }
  }

  /** Indexes the nodes by identifier, skipping those without one. */
  method IndexNodes(nodes: seq<NodePtr>, ghost ns: seq<Node>) returns (byNode: map<string, Node>)
    requires AreNodes(nodes, ns)
    ensures byNode == ByNode(ns)
  {
    byNode := map[];
    for i := 0 to |nodes|
      invariant byNode == ByNode(ns[..i])
    {
      assert ns[..i + 1][..i] == ns[..i];
      var n := NodeOf(nodes[i]);
      if n.id == "" {
        continue;
      }
      byNode := byNode[n.id := n];
    }
    assert ns[..|nodes|] == ns;
  }

  /** The guard before a selection: scans for a live node that may receive a placement. */
  method HasLiveNode(
      nodes: seq<NodePtr>, now: Time, exclude: set<string>, ghost ns: seq<Node>) returns (found: bool)
    requires AreNodes(nodes, ns)
    ensures found == HasLiveSchedulableNode(ns, now, exclude)
  {
    for i := 0 to |nodes|
      invariant forall n :: n in ns[..i] ==> !Candidate(n, now, exclude, true)
    {
      assert NodeOf(nodes[i]) == ns[i];
      assert ns[..i + 1] == ns[..i] + [ns[i]];
      var n := nodes[i].v.base;
      if n.id == "" || !n.membership.Accepted? {
        continue;
      }
      if !n.availability.Schedulable() {
        continue;
      }
      if n.id in exclude {
        continue;
      }
      if IsNodeLive(n, now) {
        assert Candidate(ns[i], now, exclude, true);
        return true;
      }
    }
    assert ns[..|nodes|] == ns;
    return false;
  }

  /** One round of the planner's loop: decides about `sb` and, if something is decided, updates its
      working copy `cur` in place. */
  method VacateOne(
      nodes: seq<NodePtr>, byNode: map<string, Node>, working: seq<SandboxPtr>,
      sb: SandboxPtr, cur: SandboxPtr, now: Time, exclude: set<string>,
      ghost ns: seq<Node>, ghost ws: seq<Sandbox>) returns (made: Option<EvictDecision>)
    requires AreNodes(nodes, ns) && AreSandboxes(working, ws) && byNode == ByNode(ns)
    requires SandboxOf(cur) == SandboxOf(sb) && cur != sb
    modifies cur
    ensures cur.v.labels == old(cur.v.labels) && cur.v.mounts == old(cur.v.mounts)
    ensures match DecideOne(ns, ws, old(SandboxOf(sb)), now, exclude)
      case None => made.None? && SandboxOf(cur) == old(SandboxOf(cur))
      case Some(d) => made.Some? && made.value.sandbox == cur && DecisionOf(made.value) == d
  {
    hide RescheduleMessage, MountFailMessage, SelectNode, HasLiveSchedulableNode;
    var base := sb.v.base;
    if !base.desired.DesiredRunning? {
      return None;
    }
    if base.nodeID == "" {
      return None;
    }
    var verdict := ClassifyVacate(byNode, base.nodeID, now);
    if verdict.None? {
      return None;
    }
    var reason := verdict.value;
    if SandboxOf(cur).spec.HasHostMounts() {
      if reason.ReasonDrain? {
        return None;
      }
      cur.v := cur.v.(base := cur.v.base.(
        status := Status(PhaseFailed, MountFailMessage(reason, base.nodeID), "", None, None, Some(now)),
        updatedAt := now));
      return Some(EvictDecision(cur, base.nodeID, true, reason));
    }
    var excludeAll := exclude + {base.nodeID};
    var any := HasLiveNode(nodes, now, excludeAll, ns);
    if !any {
      return None;
    }
    var target := SelectNodeOpts(nodes, working, now, excludeAll, ns, ws);
    if target == "" || target == base.nodeID {
      return None;
    }
    var oldNode := base.nodeID;
    cur.v := cur.v.(base := cur.v.base.(nodeID := target));
    if cur.v.base.generation < 1 {
      cur.v := cur.v.(base := cur.v.base.(generation := 1));
    }
    cur.v := cur.v.(base := cur.v.base.(generation := cur.v.base.generation + 1));
    cur.v := cur.v.(base := cur.v.base.(
      status := Status(PhaseCreated, RescheduleMessage(reason, oldNode), "", None, None, Some(now)),
      updatedAt := now));
    return Some(EvictDecision(cur, oldNode, false, reason));
  }

  /** The round for position `i`, with what it leaves alone: every other working copy and every
      decision already made. */
  method VacateAt(
      nodes: seq<NodePtr>, byNode: map<string, Node>, working: seq<SandboxPtr>, i: nat,
      sb: SandboxPtr, cur: SandboxPtr, now: Time, exclude: set<string>, out: seq<EvictDecision>,
      ghost ns: seq<Node>, ghost ws: seq<Sandbox>, ghost ds: seq<Decision>, ghost own: set<object>)
    returns (out': seq<EvictDecision>)
    requires AreNodes(nodes, ns) && AreSandboxes(working, ws) && byNode == ByNode(ns)
    requires i < |working| && working[i] == cur && cur != sb && SandboxOf(sb) == ws[i]
    requires NoDup(working) && Within(working, own)
    requires AreDecisions(out, ds) && MadeFrom(out, working[..i])
    modifies cur
    ensures Within(working, own) && MadeFrom(out', working[..i + 1])
    ensures match DecideOne(ns, ws, ws[i], now, exclude)
      case None => AreSandboxes(working, ws) && AreDecisions(out', ds)
      case Some(d) =>
        && AreSandboxes(working, ws[i := d.sandbox]) && AreDecisions(out', ds + [d])
  {
    hide DecideOne;
    assert SandboxOf(cur) == ws[i];
    assert working[..i + 1] == working[..i] + [cur];
    var made := VacateOne(nodes, byNode, working, sb, cur, now, exclude, ns, ws);
    out' := if made.Some? then out + [made.value] else out;
    forall k | 0 <= k < |working| && k != i
      ensures SandboxOf(working[k]) == ws[k]
    {
      assert old(SandboxOf(working[k])) == ws[k];
    }
    forall k | 0 <= k < |out|
      ensures DecisionOf(out[k]) == ds[k]
    {
      assert out[k] in out;
      assert old(DecisionOf(out[k])) == ds[k];
    }
  }

  /** The planner.  Its decisions are those of the specification.  It writes only to records it
      cloned itself, so neither list nor any record passed in changes, and the records it returns
      are its own. */
  method PlanVacate(
      nodes: seq<NodePtr>, sandboxes: seq<SandboxPtr>, now: Time, exclude: set<string>,
      ghost ns: seq<Node>, ghost sbs: seq<Sandbox>) returns (out: seq<EvictDecision>)
    requires AreNodes(nodes, ns) && AreSandboxes(sandboxes, sbs)
    requires UniqueSandboxes(sbs)
    ensures AreDecisions(out, Vacate.PlanVacate(ns, sbs, now, exclude))
    ensures forall d :: d in out ==> fresh(d.sandbox) && fresh(d.sandbox.v.labels) && fresh(d.sandbox.v.mounts)
  {
    hide DecideOne, Choices, Working, Decided;
    NoChoices(ns, sbs, now, exclude);
    if |sandboxes| == 0 {
      return [];
    }
    var byNode := IndexNodes(nodes, ns);
    var working, byID, own := CloneAll(sandboxes, sbs);
    out := [];
    for i := 0 to |sandboxes|
      invariant Within(working, own)
      invariant AreSandboxes(working, Working(sbs, Choices(ns, sbs, now, exclude, i)))
      invariant AreDecisions(out, Decided(Choices(ns, sbs, now, exclude, i)))
      invariant MadeFrom(out, working[..i])
    {
      ghost var choices := Choices(ns, sbs, now, exclude, i);
      RoundMeaning(ns, sbs, now, exclude, i);
      var sb := sandboxes[i];
      assert SandboxOf(sb) == sbs[i];
      out := VacateAt(nodes, byNode, working, i, sb, byID[sb.v.base.id], now, exclude, out,
                      ns, Working(sbs, choices), Decided(choices), own);
    }
    assert working[..|sandboxes|] == working;
  }

  /** What round `i` does to the working copy and to the decisions. */
  lemma RoundMeaning(nodes: seq<Node>, sandboxes: seq<Sandbox>, now: Time, exclude: set<string>, i: nat)
    requires i < |sandboxes|
    ensures
      var choices := Choices(nodes, sandboxes, now, exclude, i);
      var choices' := Choices(nodes, sandboxes, now, exclude, i + 1);
      var ws := Working(sandboxes, choices);
      var choice := DecideOne(nodes, ws, sandboxes[i], now, exclude);
      && ws[i] == sandboxes[i]
      && Working(sandboxes, choices') == (if choice.Some? then ws[i := choice.value.sandbox] else ws)
      && Decided(choices') == Decided(choices) + (if choice.Some? then [choice.value] else [])
  {
    hide DecideOne, Working;
    ChoicesStep(nodes, sandboxes, now, exclude, i + 1);
    var choices, choices' := Choices(nodes, sandboxes, now, exclude, i), Choices(nodes, sandboxes, now, exclude, i + 1);
    hide Choices;
    assert choices'[..i] == choices;
    WorkingStep(sandboxes, choices');
  }
}
