/** The spread scheduler: liveness windows, node loads, and the choice of a placement target. */
module Scheduler {
  import opened Records

  /** A node whose last heartbeat is older than this is ineligible for new placement. */
  const HEARTBEAT_STALE_AFTER: Time := 30 * SECOND

  /** A node whose last heartbeat is older than this may have its sandboxes moved away. */
  const HEARTBEAT_EVICT_AFTER: Time := 60 * SECOND

  predicate IsNodeLive(n: Node, now: Time) {
    n.heartbeatAt.Some? && now - n.heartbeatAt.value <= HEARTBEAT_STALE_AFTER
  }

  predicate IsNodeEvictable(n: Node, now: Time) {
    && n.membership.Accepted?
    && n.heartbeatAt.Some?
    && now - n.heartbeatAt.value > HEARTBEAT_EVICT_AFTER
  }

  /** Whether membership, availability and the exclusions let a node receive a placement. */
  predicate Placeable(n: Node, exclude: set<string>) {
    n.id != "" && n.membership.Accepted? && n.availability.Schedulable() && n.id !in exclude
  }

  predicate Candidate(n: Node, now: Time, exclude: set<string>, liveOnly: bool) {
    Placeable(n, exclude) && (liveOnly ==> IsNodeLive(n, now))
  }

  predicate HasLiveSchedulableNode(nodes: seq<Node>, now: Time, exclude: set<string>) {
    exists n :: n in nodes && Candidate(n, now, exclude, true)
  }

  // ---------------------------------------------------------------- loads

  /** Whether a sandbox counts towards the load of a node. */
  predicate Occupies(sb: Sandbox, id: string) {
    sb.nodeID != "" && !sb.desired.DesiredRemoved? && sb.nodeID == id
  }

  /** How many of the sandboxes count towards the load of a node. */
  function Load(sandboxes: seq<Sandbox>, id: string): nat {
    if |sandboxes| == 0 then 0
    else Load(sandboxes[..|sandboxes| - 1], id) + (if Occupies(sandboxes[|sandboxes| - 1], id) then 1 else 0)
  }

  /** Replacing one record changes a load by what the two records contribute. */
  lemma {:induction false} LoadUpdate(sandboxes: seq<Sandbox>, i: nat, sb: Sandbox, id: string)
    requires i < |sandboxes|
    ensures Load(sandboxes[i := sb], id)
         == Load(sandboxes, id)
            - (if Occupies(sandboxes[i], id) then 1 else 0)
            + (if Occupies(sb, id) then 1 else 0)
  {
    var last := |sandboxes| - 1;
    var upd := sandboxes[i := sb];
    if i == last {
      assert upd[..last] == sandboxes[..last];
    } else {
      assert upd[..last] == sandboxes[..last][i := sb];
      LoadUpdate(sandboxes[..last], i, sb, id);
    }
  }

  // ---------------------------------------------------------------- the choice

  /** The first candidate of least load. */
  function FirstMin(nodes: seq<Node>, sandboxes: seq<Sandbox>, now: Time, exclude: set<string>, liveOnly: bool)
    : (r: Option<nat>)
    ensures r.None? <==> forall i :: 0 <= i < |nodes| ==> !Candidate(nodes[i], now, exclude, liveOnly)
    ensures r.Some? ==>
      && r.value < |nodes|
      && Candidate(nodes[r.value], now, exclude, liveOnly)
      && forall i :: 0 <= i < |nodes| && Candidate(nodes[i], now, exclude, liveOnly) ==>
           && Load(sandboxes, nodes[r.value].id) <= Load(sandboxes, nodes[i].id)
           && (i < r.value ==> Load(sandboxes, nodes[r.value].id) < Load(sandboxes, nodes[i].id))
  {
    if |nodes| == 0 then None
    else
      var last := |nodes| - 1;
      var best := FirstMin(nodes[..last], sandboxes, now, exclude, liveOnly);
      assert forall i :: 0 <= i < last ==> nodes[..last][i] == nodes[i];
      if Candidate(nodes[last], now, exclude, liveOnly)
         && (best.None? || Load(sandboxes, nodes[last].id) < Load(sandboxes, nodes[best.value].id))
      then Some(last)
      else best
  }

  /** The scheduler's choice: the first least loaded live candidate, else the first least loaded
      candidate, else nothing (the empty identifier). */
  function SelectNode(nodes: seq<Node>, sandboxes: seq<Sandbox>, now: Time, exclude: set<string>): string {
    match FirstMin(nodes, sandboxes, now, exclude, true)
    case Some(i) => nodes[i].id
    case None =>
      match FirstMin(nodes, sandboxes, now, exclude, false)
      case Some(i) => nodes[i].id
      case None => ""
  }

  /** A first-in-order node of least load among the candidates. */
  ghost predicate IsFirstLeastLoaded(
      target: string, nodes: seq<Node>, sandboxes: seq<Sandbox>, now: Time, exclude: set<string>, liveOnly: bool) {
    exists i ::
      && 0 <= i < |nodes|
      && nodes[i].id == target
      && Candidate(nodes[i], now, exclude, liveOnly)
      && forall j :: 0 <= j < |nodes| && Candidate(nodes[j], now, exclude, liveOnly) ==>
           && Load(sandboxes, target) <= Load(sandboxes, nodes[j].id)
           && (j < i ==> Load(sandboxes, target) < Load(sandboxes, nodes[j].id))
  }

  /** What the choice means.  The liveness test inside the choice is the one the separate guard
      makes, so the choice is a live node exactly when the guard says one exists. */
  lemma SelectNodeMeaning(nodes: seq<Node>, sandboxes: seq<Sandbox>, now: Time, exclude: set<string>)
    ensures var target := SelectNode(nodes, sandboxes, now, exclude);
      && (HasLiveSchedulableNode(nodes, now, exclude) <==>
            exists n :: n in nodes && n.id == target && Candidate(n, now, exclude, true)
              && IsFirstLeastLoaded(target, nodes, sandboxes, now, exclude, true))
      && (!HasLiveSchedulableNode(nodes, now, exclude) ==>
            || (target == "" && forall n :: n in nodes ==> !Placeable(n, exclude))
            || IsFirstLeastLoaded(target, nodes, sandboxes, now, exclude, false))
      && target !in exclude - {""}
  {
    var live := FirstMin(nodes, sandboxes, now, exclude, true);
    var all := FirstMin(nodes, sandboxes, now, exclude, false);
    if live.Some? {
      assert nodes[live.value] in nodes;
      assert IsFirstLeastLoaded(nodes[live.value].id, nodes, sandboxes, now, exclude, true);
    } else if all.Some? {
      assert IsFirstLeastLoaded(nodes[all.value].id, nodes, sandboxes, now, exclude, false);
    } else {
      forall n | n in nodes ensures !Placeable(n, exclude) {
        assert !Candidate(n, now, exclude, false);
      }
    }
  }

  // ---------------------------------------------------------------- the choice, read off the records

  /** A node that may receive sandboxes, in the terms of its record. */
  ghost predicate Open(n: Node, exclude: set<string>) {
    && n.id != "" && n.id !in exclude && n.membership == Accepted
    && n.availability != Pause && n.availability != Drain
  }

  /** A heartbeat in the last thirty seconds. */
  ghost predicate Fresh(n: Node, now: Time) {
    n.heartbeatAt.Some? && now - n.heartbeatAt.value <= 30 * SECOND
  }

  /** The last heartbeat is more than a minute old; a node that never sent one is not silent. */
  ghost predicate Silent(n: Node, now: Time) {
    n.membership == Accepted && n.heartbeatAt.Some? && now - n.heartbeatAt.value > 60 * SECOND
  }

  /** The positions of the sandboxes that are on the node and not to be removed. */
  ghost function On(sandboxes: seq<Sandbox>, id: string): set<nat> {
    set i: nat | i < |sandboxes| && sandboxes[i].nodeID == id && sandboxes[i].desired != DesiredRemoved
  }

  lemma OnOneMore(sandboxes: seq<Sandbox>, id: string)
    requires |sandboxes| > 0
    ensures
      var last := |sandboxes| - 1;
      && last !in On(sandboxes[..last], id)
      && On(sandboxes, id) == On(sandboxes[..last], id)
           + if sandboxes[last].nodeID == id && sandboxes[last].desired != DesiredRemoved then {last} else {}
  {
  }

  lemma {:induction false} LoadIsCount(sandboxes: seq<Sandbox>, id: string)
    requires id != ""
    ensures Load(sandboxes, id) == |On(sandboxes, id)|
  {
    hide On;
    if |sandboxes| == 0 {
      NobodyOn(id);
    } else {
      LoadIsCount(sandboxes[..|sandboxes| - 1], id);
      OnOneMore(sandboxes, id);
    }
  }

  lemma NobodyOn(id: string)
    ensures On([], id) == {}
  {
  }

  /** The node at position `i` has, among the open nodes and, if asked for, the fresh ones of them, the
      fewest sandboxes, and fewer than every earlier one. */
  ghost predicate FirstFewest(
      nodes: seq<Node>, sandboxes: seq<Sandbox>, now: Time, exclude: set<string>, live: bool, i: nat) {
    && i < |nodes| && Open(nodes[i], exclude) && (live ==> Fresh(nodes[i], now))
    && forall j :: 0 <= j < |nodes| && Open(nodes[j], exclude) && (live ==> Fresh(nodes[j], now)) ==>
         && |On(sandboxes, nodes[i].id)| <= |On(sandboxes, nodes[j].id)|
         && (j < i ==> |On(sandboxes, nodes[i].id)| < |On(sandboxes, nodes[j].id)|)
  }

  lemma CandidateMeaning(n: Node, now: Time, exclude: set<string>, liveOnly: bool)
    ensures Candidate(n, now, exclude, liveOnly) <==> Open(n, exclude) && (liveOnly ==> Fresh(n, now))
  {
  }

  /** The choice among the nodes' records.  It is the first open node with the fewest sandboxes, among
      the fresh ones if there are any; and it is nothing exactly if no node is open. */
  lemma ChoiceMeaning(nodes: seq<Node>, sandboxes: seq<Sandbox>, now: Time, exclude: set<string>)
    ensures var target := SelectNode(nodes, sandboxes, now, exclude);
      var live := exists n :: n in nodes && Open(n, exclude) && Fresh(n, now);
      if exists n :: n in nodes && Open(n, exclude)
      then exists i: nat :: FirstFewest(nodes, sandboxes, now, exclude, live, i) && nodes[i].id == target
      else target == ""
  {
    hide Load, Open, Fresh, On, Candidate;
    forall n, liveOnly
      ensures Candidate(n, now, exclude, liveOnly) <==> Open(n, exclude) && (liveOnly ==> Fresh(n, now))
    {
      CandidateMeaning(n, now, exclude, liveOnly);
    }
    var live := exists n :: n in nodes && Open(n, exclude) && Fresh(n, now);
    if n :| n in nodes && Open(n, exclude) {
      var i := FirstMin(nodes, sandboxes, now, exclude, live).value;
      forall j | 0 <= j < |nodes| && Open(nodes[j], exclude)
        ensures Load(sandboxes, nodes[j].id) == |On(sandboxes, nodes[j].id)|
      {
        OpenIsNamed(nodes[j], exclude);
        LoadIsCount(sandboxes, nodes[j].id);
      }
      assert FirstFewest(nodes, sandboxes, now, exclude, live, i);
    }
  }

  lemma OpenIsNamed(n: Node, exclude: set<string>)
    requires Open(n, exclude)
    ensures n.id != ""
  {
  }
}
