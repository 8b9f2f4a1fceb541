/** The handlers as the program runs them: a server object that reads clones from the store, changes
    them in place, saves them through the log and updates the quarantine; and the node's side of the
    protocol.  Each method is proved to do what its specification function says. */
module ControlServer {
  import opened Records
  import opened Seqs
  import opened Heap
  import opened Control
  import opened FsmHeap
  import Fsm
  import Endpoints
  import FsmIndex
  import Planner
  import Scheduler
  import Vacate
  import Quarantine

  /** The values on the wire for a list of records. */
  method Encode(list: seq<SandboxPtr>, ghost vs: seq<Sandbox>) returns (out: seq<Sandbox>)
    requires AreSandboxes(list, vs)
    ensures out == vs
  {
    out := [];
    for i := 0 to |list|
      invariant out == vs[..i]
    {
      out := out + [SandboxOf(list[i])];
    }
  }

  /** The answer to a heartbeat, and what it says about managers. */
  datatype Response = Response(answer: Answer, leader: string, managers: seq<string>)

  function AnswerOf(r: Result<Response>): Result<Answer> {
    if r.Done? then Done(r.value.answer) else Failed(r.why)
  }

  class SandboxServer {
    const store: Store
    const tracker: Quarantine.Tracker

    ghost predicate Valid()
      reads store, store.objs.cluster, store.objs.nodes, store.objs.sandboxes, store.objs.volumes, store.objs.keys
    {
      store.Valid() && tracker !in store.objs.All()
    }

    constructor (store: Store)
      requires store.Valid()
      ensures Valid() && this.store == store && fresh(tracker) && tracker.nodes == map[]
    {
      this.store := store;
      tracker := new Quarantine.Tracker();
    }

    /** Hands a command to the log. */
    method Commit(cmd: Fsm.Command, commit: Commit) returns (failure: Option<Failure>)
      requires Valid()
      modifies store
      ensures Valid() && fresh(store.objs.All() - old(store.objs.All()))
      ensures (store.state, failure) == Save(old(store.state), cmd, commit)
    {
      hide store.Valid, Fsm.Apply;
      if commit.NotLeader? || commit.Lost? {
        return Some(if commit.NotLeader? then Unavailable else Internal);
      }
      var r := store.Apply(cmd);
      if commit.Unconfirmed? {
        return Some(Internal);
      }
      return if r != Fsm.Ok then Some(MapStoreErr(r)) else None;
    }

    /** The node a new sandbox goes to: the scheduler's choice unless a named volume overrides it. */
    method Place(spec: Spec, now: Time)
      returns (r: Result<string>, ghost nodeKeys: seq<string>, ghost sandboxKeys: seq<string>)
      requires Valid()
      ensures IsKeyOrder(nodeKeys, store.state.nodes.Keys)
      ensures IsKeyOrder(sandboxKeys, store.state.sandboxes.records.Keys)
      ensures forall k :: k in nodeKeys ==> k in store.state.nodes
      ensures forall k :: k in sandboxKeys ==> k in store.state.sandboxes.records
      ensures r == PinNode(
        store.state.volumes, spec.NamedVolumeNames(),
        Scheduler.SelectNode(
          Listing(nodeKeys, store.state.nodes), Listing(sandboxKeys, store.state.sandboxes.records), now,
          tracker.nodes.Keys))
    {
      hide Holds, Scheduler.SelectNode, AreNodes, AreSandboxes, PinNode, IsKeyOrder;
      var nodes, sandboxes;
      nodes, nodeKeys := store.ListNodes();
      OrderMembers(nodeKeys, store.state.nodes.Keys);
      ghost var ns := Listing(nodeKeys, store.state.nodes);
      sandboxes, sandboxKeys := store.ListSandboxes();
      OrderMembers(sandboxKeys, store.state.sandboxes.records.Keys);
      var held := tracker.Excluded();
      var chosen := Planner.SelectNodeOpts(
        nodes, sandboxes, now, held, ns, Listing(sandboxKeys, store.state.sandboxes.records));
      r := Pin(spec.NamedVolumeNames(), chosen);
    }

    method Pin(names: seq<string>, chosen: string) returns (r: Result<string>)
      requires Valid()
      ensures r == PinNode(store.state.volumes, names, chosen)
    {
      hide Holds, Fsm.ByName;
      for i := 0 to |names|
        invariant PinNode(store.state.volumes, names, chosen) == PinNode(store.state.volumes, names[i..], chosen)
      {
        var v := store.GetVolumeByName(names[i]);
        assert names[i..][1..] == names[i + 1..];
        if v.None? {
          return Failed(InvalidArgument);
        }
        if v.value.v.base.nodeID != "" {
          return Done(v.value.v.base.nodeID);
        }
      }
      return Done(chosen);
    }

    /** Creates a sandbox; `generated` is what generating an identifier yields. */
    method Create(req: CreateRequest, generated: Option<string>, now: Time, commit: Commit)
      returns (r: Result<Sandbox>, ghost nodeKeys: seq<string>, ghost sandboxKeys: seq<string>)
      requires Valid()
      modifies store
      ensures Valid()
      ensures IsKeyOrder(nodeKeys, old(store.state).nodes.Keys)
      ensures IsKeyOrder(sandboxKeys, old(store.state).sandboxes.records.Keys)
      ensures (store.state, r)
           == Control.Create(
                old(store.state), tracker.nodes.Keys, now, req, generated, nodeKeys, sandboxKeys, commit)
    {
      hide store.Valid, Save, ValidSpec, Fsm.ByName, Scheduler.SelectNode, PinNode, NamedVolumesOf;
      nodeKeys := SomeOrder(store.state.nodes.Keys);
      sandboxKeys := SomeOrder(store.state.sandboxes.records.Keys);
      if !req.wellFormed || !ValidSpec(req.spec) {
        return Failed(InvalidArgument), nodeKeys, sandboxKeys;
      }
      var existing := store.GetSandboxByName(req.spec.name);
      if existing.Some? {
        return Failed(AlreadyExists), nodeKeys, sandboxKeys;
      }
      var id := req.id;
      if id == "" {
        if generated.None? {
          return Failed(Internal), nodeKeys, sandboxKeys;
        }
        id := generated.value;
      }
      var placed;
      placed, nodeKeys, sandboxKeys := Place(req.spec, now);
      if placed.Failed? {
        return Failed(placed.why), nodeKeys, sandboxKeys;
      }
      var sb := NewSandbox(req, id, placed.value, now);
      var failure := Commit(Fsm.SaveSandbox(sb), commit);
      r := if failure.Some? then Failed(failure.value) else Done(sb);
    }

    /** Starts or stops a sandbox: the clone the getter returned is changed in place and saved. */
    method SetDesired(id: string, desired: DesiredState, now: Time, commit: Commit) returns (r: Result<Sandbox>)
      requires Valid()
      modifies store
      ensures Valid()
      ensures (store.state, r) == Control.SetDesired(old(store.state), now, id, desired, commit)
    {
      hide Holds, Save;
      var sb := store.GetSandbox(id);
      if sb.None? {
        return Failed(Missing);
      }
      var p := sb.value;
      p.v := p.v.(base := p.v.base.(desired := desired, updatedAt := now));
      ghost var saved := SandboxOf(p);
      var failure := Commit(Fsm.SaveSandbox(SandboxOf(p)), commit);
      assert SandboxOf(p) == saved;
      r := if failure.Some? then Failed(failure.value) else Done(SandboxOf(p));
    }

    method Remove(id: string, commit: Commit) returns (failure: Option<Failure>)
      requires Valid()
      modifies store
      ensures Valid()
      ensures (store.state, failure) == Control.Remove(old(store.state), id, commit)
      ensures failure == None ==> id !in store.state.sandboxes.records
    {
      hide Holds;
      var sb := store.GetSandbox(id);
      if sb.None? {
        return Some(Missing);
      }
      failure := Commit(Fsm.DeleteSandbox(id), commit);
    }

    /** A status report: checks the peer and the generation against the stored record. */
    method UpdateSandboxStatus(
        peer: Certificate, id: string, generation: int, status: Status, now: Time, commit: Commit)
      returns (failure: Option<Failure>)
      requires Valid()
      modifies store
      ensures Valid()
      ensures (store.state, failure)
           == Control.UpdateSandboxStatus(old(store.state), now, peer, id, generation, status, commit)
    {
      hide Holds, Save;
      var sb := store.GetSandbox(id);
      if sb.None? {
        return Some(Missing);
      }
      var p := sb.value;
      if p.v.base.nodeID != "" {
        if !MaySpeakFor(peer, p.v.base.nodeID) {
          return Some(PermissionDenied);
        }
      }
      if CheckAssignmentGeneration(p.v.base.generation, generation).StaleAssignment? {
        return Some(FailedPrecondition);
      }
      p.v := p.v.(base := p.v.base.(status := status.(updatedAt := Some(now)), updatedAt := now));
      failure := Commit(Fsm.SaveSandbox(SandboxOf(p)), commit);
    }

    /** The leader's own node reports directly: the effect is that of a report it would have sent. */
    method ReportLocally(nodeID: string, id: string, generation: int, status: Status, now: Time, commit: Commit)
      returns (accepted: bool)
      requires Valid()
      modifies store
      ensures Valid()
      ensures var (fsm, failure) := Control.UpdateSandboxStatus(
                old(store.state), now, Certificate(nodeID, false), id, generation, status, commit);
        store.state == fsm && accepted == failure.None?
    {
      hide Holds, Save;
      var sb := store.GetSandbox(id);
      if sb.None? {
        return false;
      }
      var p := sb.value;
      if p.v.base.nodeID != "" && p.v.base.nodeID != nodeID {
        return false;
      }
      if CheckAssignmentGeneration(p.v.base.generation, generation).StaleAssignment? {
        return false;
      }
      p.v := p.v.(base := p.v.base.(status := status.(updatedAt := Some(now)), updatedAt := now));
      var failure := Commit(Fsm.SaveSandbox(SandboxOf(p)), commit);
      accepted := failure.None?;
    }

    // -------------------------------------------------------------- heartbeats

    /** What both heartbeats do with a node record: stamp and save it, note the heartbeat, and list the
        node's sandboxes. */
    method Stamp(n: NodePtr, beat: Beat, now: Time, commit: Commit)
      returns (r: Result<Answer>, ghost keys: seq<string>)
      requires Valid() && n !in store.objs.All()
      modifies store, tracker, n
      ensures Valid() && fresh(store.objs.All() - old(store.objs.All()))
      ensures IsKeyOrder(keys, old(store.state).sandboxes.records.Keys)
      ensures forall k :: k in keys ==> k in old(store.state).sandboxes.records
      ensures Outcome(store.state, tracker.nodes, r)
           == Beating(old(store.state), old(tracker.nodes), old(NodeOf(n)), now, beat, keys, commit)
      ensures r.Done? ==> r.value.Assigned?
    {
      hide Holds, Save, Fsm.SandboxesByNode;
      ghost var before := store.state;
      n.v := n.v.(base := n.v.base.(
        grpcAddr := beat.grpcAddr, heartbeatAt := Some(now), sandboxCount := beat.count));
      assert NodeOf(n) == Beaten(old(NodeOf(n)), beat, now);
      var failure := Commit(Fsm.SaveNode(NodeOf(n)), commit);
      SaveNodeKeepsSandboxes(before, Beaten(old(NodeOf(n)), beat, now), commit);
      if failure.Some? {
        keys := SomeOrder(before.sandboxes.records.Keys);
        OrderMembers(keys, before.sandboxes.records.Keys);
        return Failed(failure.value), keys;
      }
      r, keys := NoteAndList(beat.nodeID, n.v.base.role);
    }

    method NoteAndList(nodeID: string, role: Role) returns (r: Result<Answer>, ghost keys: seq<string>)
      requires Valid()
      modifies tracker
      ensures Valid()
      ensures tracker.nodes == Quarantine.Note(old(tracker.nodes), nodeID)
      ensures IsKeyOrder(keys, store.state.sandboxes.records.Keys)
      ensures forall k :: k in keys ==> k in store.state.sandboxes.records
      ensures r == Done(Assigned(role, Fsm.SandboxesByNode(store.state.sandboxes.records, keys, nodeID)))
    {
      hide Holds, AreSandboxes, Fsm.SandboxesByNode;
      tracker.NoteHeartbeat(nodeID);
      var list;
      list, keys := store.ListSandboxesByNode(nodeID);
      var out := Encode(list, Fsm.SandboxesByNode(store.state.sandboxes.records, keys, nodeID));
      r := Done(Assigned(role, out));
    }

    /** The heartbeat of a node; the answer to one whose record is stored also carries the managers. */
    method Heartbeat(
        peer: Certificate, beat: Beat, raft: Option<Endpoints.RaftView>, now: Time, commit: Commit)
      returns (r: Result<Response>, ghost keys: seq<string>, ghost peerKeys: seq<string>)
      requires Valid()
      modifies store, tracker
      ensures Valid()
      ensures IsKeyOrder(keys, old(store.state).sandboxes.records.Keys)
      ensures Outcome(store.state, tracker.nodes, AnswerOf(r))
           == Control.Heartbeat(old(store.state), old(tracker.nodes), now, peer, beat, keys, commit)
      ensures IsKeyOrder(peerKeys, store.state.peers.Keys) && forall k :: k in peerKeys ==> k in store.state.peers
      ensures r.Done? ==>
        (r.value.leader, r.value.managers) ==
          if r.value.answer.Removed? then ("", [])
          else Endpoints.ManagersOf(raft, Endpoints.Addresses(Listing(peerKeys, store.state.peers)))
    {
      hide Holds, Beating, Endpoints.ManagersOf;
      keys := SomeOrder(store.state.sandboxes.records.Keys);
      peerKeys := SomeOrder(store.state.peers.Keys);
      OrderMembers(peerKeys, store.state.peers.Keys);
      if beat.nodeID == "" {
        return Failed(InvalidArgument), keys, peerKeys;
      }
      if !MaySpeakFor(peer, beat.nodeID) {
        return Failed(PermissionDenied), keys, peerKeys;
      }
      var n := store.GetNode(beat.nodeID);
      if n.None? {
        return Done(Response(Removed, "", [])), keys, peerKeys;
      }
      var answer;
      answer, keys := Stamp(n.value, beat, now, commit);
      var peers;
      peers, peerKeys := store.ListPeers();
      if answer.Failed? {
        return Failed(answer.why), keys, peerKeys;
      }
      var leader, managers := Endpoints.ManagerEndpoints(raft, peers);
      r := Done(Response(answer.value, leader, managers));
    }

    method LocalHeartbeat(role: Role, beat: Beat, now: Time, commit: Commit)
      returns (r: Result<Answer>, ghost keys: seq<string>)
      requires Valid()
      modifies store, tracker
      ensures Valid() && fresh(store.objs.All() - old(store.objs.All()))
      ensures IsKeyOrder(keys, old(store.state).sandboxes.records.Keys)
      ensures Outcome(store.state, tracker.nodes, r)
           == Control.LocalHeartbeat(old(store.state), old(tracker.nodes), now, role, beat, keys, commit)
    {
      hide Holds, Beating;
      var got := store.GetNode(beat.nodeID);
      var n: NodePtr;
      if got.Some? {
        n := got.value;
      } else {
        var labels := new Ref(map[]);
        n := new Ref(NodeRec(OwnRecord(beat.nodeID, role), labels));
      }
      r, keys := Stamp(n, beat, now, commit);
    }

    // -------------------------------------------------------------- eviction

    /** The plan the eviction round starts from. */
    method Plan(now: Time)
      returns (out: seq<Planner.EvictDecision>, ghost nodeKeys: seq<string>, ghost sandboxKeys: seq<string>)
      requires Valid() && FsmIndex.Keyed(store.state)
      ensures Valid()
      ensures IsKeyOrder(nodeKeys, store.state.nodes.Keys)
      ensures IsKeyOrder(sandboxKeys, store.state.sandboxes.records.Keys)
      ensures Planner.AreDecisions(out, Decisions(store.state, tracker.nodes.Keys, now, nodeKeys, sandboxKeys))
      ensures forall d :: d in out ==> fresh(d.sandbox) && fresh(d.sandbox.v.labels) && fresh(d.sandbox.v.mounts)
    {
      hide Holds, Vacate.PlanVacate, Planner.AreDecisions, FsmIndex.Keyed, AreNodes, AreSandboxes, IsKeyOrder;
      var nodes, sandboxes;
      nodes, nodeKeys := store.ListNodes();
      OrderMembers(nodeKeys, store.state.nodes.Keys);
      ghost var ns := Listing(nodeKeys, store.state.nodes);
      sandboxes, sandboxKeys := store.ListSandboxes();
      OrderMembers(sandboxKeys, store.state.sandboxes.records.Keys);
      ghost var sbs := Listing(sandboxKeys, store.state.sandboxes.records);
      ListedOnce(store.state, sandboxKeys);
      var held := tracker.Excluded();
      out := Planner.PlanVacate(nodes, sandboxes, now, held, ns, sbs);
    }

    /** Saves one decision and marks its source, unless that was done in this round already. */
    method SaveOne(dec: Planner.EvictDecision, commit: Commit, marked: set<string>) returns (marked': set<string>)
      requires Valid()
      requires forall id :: id in marked ==> Quarantine.Mark(tracker.nodes, id) == tracker.nodes
      modifies store, tracker
      ensures Valid()
      ensures (store.state, tracker.nodes)
           == SaveDecision(old(store.state), old(tracker.nodes), old(Planner.DecisionOf(dec)), commit)
      ensures forall id :: id in marked' ==> Quarantine.Mark(tracker.nodes, id) == tracker.nodes
    {
      hide Holds, Save;
      marked' := marked;
      var failure := Commit(Fsm.SaveSandbox(SandboxOf(dec.sandbox)), commit);
      if failure.Some? {
        return;
      }
      if dec.reason.ReasonHeartbeat? {
        if dec.source !in marked {
          tracker.MarkEvicted(dec.source);
          marked' := marked + {dec.source};
        }
      }
    }

    /** Saves the decisions one after the other; `outcome` says what becomes of each save. */
    method SaveDecisions(out: seq<Planner.EvictDecision>, outcome: nat -> Commit, ghost decisions: seq<Vacate.Decision>)
      returns (ghost commits: seq<Commit>)
      requires Valid() && Planner.AreDecisions(out, decisions)
      modifies store, tracker
      ensures Valid()
      ensures commits == Outcomes(outcome, |decisions|)
      ensures (store.state, tracker.nodes) == SaveAll(old(store.state), old(tracker.nodes), decisions, commits)
    {
      hide Valid, SaveDecision;
      commits := Outcomes(outcome, |decisions|);
      var marked: set<string> := {};
      for i := 0 to |out|
        invariant Valid() && Planner.AreDecisions(out, decisions)
        invariant (store.state, tracker.nodes)
               == SaveAll(old(store.state), old(tracker.nodes), decisions[..i], commits[..i])
        invariant forall id :: id in marked ==> Quarantine.Mark(tracker.nodes, id) == tracker.nodes
      {
        assert Planner.DecisionOf(out[i]) == decisions[i];
        assert decisions[..i + 1][..i] == decisions[..i] && commits[..i + 1][..i] == commits[..i];
        marked := SaveOne(out[i], outcome(i), marked);
      }
      assert decisions[..|out|] == decisions && commits[..|out|] == commits;
    }

    /** One eviction round: plans against clones, saves the decisions one after the other and marks the
        source of a saved heartbeat decision, once per source. */
    method RunEviction(now: Time, outcome: nat -> Commit)
      returns (ghost nodeKeys: seq<string>, ghost sandboxKeys: seq<string>, ghost commits: seq<Commit>)
      requires Valid() && FsmIndex.Keyed(store.state)
      modifies store, tracker
      ensures Valid()
      ensures IsKeyOrder(nodeKeys, old(store.state).nodes.Keys)
      ensures IsKeyOrder(sandboxKeys, old(store.state).sandboxes.records.Keys)
      ensures var decisions := Decisions(old(store.state), old(tracker.nodes.Keys), now, nodeKeys, sandboxKeys);
        && commits == Outcomes(outcome, |decisions|)
        && (store.state, tracker.nodes) == SaveAll(old(store.state), old(tracker.nodes), decisions, commits)
    {
      hide Valid, Decisions, SaveAll, FsmIndex.Keyed, Planner.AreDecisions;
      var out;
      out, nodeKeys, sandboxKeys := Plan(now);
      ghost var decisions := Decisions(store.state, tracker.nodes.Keys, now, nodeKeys, sandboxKeys);
      commits := SaveDecisions(out, outcome, decisions);
    }
  }

  lemma ListedOnce(fsm: Fsm.State, keys: seq<string>)
    requires FsmIndex.Keyed(fsm) && IsKeyOrder(keys, fsm.sandboxes.records.Keys)
    requires forall k :: k in keys ==> k in fsm.sandboxes.records
    ensures Vacate.UniqueSandboxes(Listing(keys, fsm.sandboxes.records))
  {
  }

  // ---------------------------------------------------------------- the node's side

  /** The daemon of one node: it caches what heartbeats were answered with, and hands clones of it to
      the agent. */
  class NodeDaemon {
    var lastAssigned: seq<SandboxPtr>
    ghost var cached: seq<Sandbox>

    ghost predicate Valid()
      reads this, lastAssigned, set p | p in lastAssigned :: p.v.labels
      reads set p | p in lastAssigned :: p.v.mounts
    {
      AreSandboxes(lastAssigned, cached)
    }

    constructor ()
      ensures Valid() && cached == []
    {
      lastAssigned, cached := [], [];
    }

    /** Replaces the cache, whatever it holds, by the list of an answer. */
    method CacheAssigned(list: seq<Sandbox>)
      modifies this
      ensures Valid() && cached == list
    {
      var out: seq<SandboxPtr> := [];
      ghost var objs: set<object> := {};
      for i := 0 to |list|
        invariant |out| == i && fresh(objs) && Within(out, objs)
        invariant forall k :: 0 <= k < i ==> SandboxOf(out[k]) == list[k]
      {
        var labels := new Ref(list[i].labels);
        var mounts := new Ref(list[i].spec.mounts);
        var p := new Ref(SandboxRec(list[i], labels, mounts));
        WithinAppend(out, objs, p);
        out := out + [p];
        objs := objs + {p as object, labels as object, mounts as object};
      }
      lastAssigned, cached := out, list;
    }

    /** The list the agent reconciles from: read from the store on the leader, else clones of the
        cache, so that nothing the agent does to them reaches the cache. */
    method FetchAssignments(nodeID: string, leading: Option<Store>)
      returns (list: seq<SandboxPtr>, ghost vs: seq<Sandbox>, ghost keys: seq<string>)
      requires Valid() && (leading.Some? ==> leading.value.Valid())
      ensures AreSandboxes(list, vs)
      ensures forall p :: p in list ==> fresh(p) && fresh(p.v.labels) && fresh(p.v.mounts)
      ensures leading.None? ==> vs == cached
      ensures leading.Some? ==>
        var records := leading.value.state.sandboxes.records;
        && IsKeyOrder(keys, records.Keys)
        && (forall k :: k in keys ==> k in records)
        && vs == Fsm.SandboxesByNode(records, keys, nodeID)
    {
      hide Holds, Fsm.SandboxesByNode;
      if leading.Some? {
        list, keys := leading.value.ListSandboxesByNode(nodeID);
        vs := Fsm.SandboxesByNode(leading.value.state.sandboxes.records, keys, nodeID);
        return;
      }
      list := CloneCache();
      vs, keys := cached, [];
    }

    method CloneCache() returns (list: seq<SandboxPtr>)
      requires Valid()
      ensures AreSandboxes(list, cached)
      ensures forall p :: p in list ==> fresh(p) && fresh(p.v.labels) && fresh(p.v.mounts)
    {
      list := [];
      ghost var objs: set<object> := {};
      for i := 0 to |lastAssigned|
        invariant |list| == i && fresh(objs) && Within(list, objs)
        invariant forall k :: 0 <= k < i ==> SandboxOf(list[k]) == cached[k]
      {
        assert SandboxOf(lastAssigned[i]) == cached[i];
        var cp := CloneSandbox(lastAssigned[i]);
        WithinAppend(list, objs, cp);
        list := list + [cp];
        objs := objs + {cp as object, cp.v.labels as object, cp.v.mounts as object};
      }
    }

    /** How many sandboxes the node says it has. */
    method Count(nodeID: string, agent: bool, leading: Option<Store>) returns (count: int, ghost keys: seq<string>)
      requires Valid() && (leading.Some? ==> leading.value.Valid())
      ensures !agent ==> count == 0
      ensures agent && leading.None? ==> count == |cached|
      ensures agent && leading.Some? ==>
        var records := leading.value.state.sandboxes.records;
        && IsKeyOrder(keys, records.Keys)
        && (forall k :: k in keys ==> k in records)
        && count == |Fsm.SandboxesByNode(records, keys, nodeID)|
    {
      hide Holds, Fsm.SandboxesByNode;
      if !agent {
        return 0, [];
      }
      var list;
      ghost var vs;
      list, vs, keys := FetchAssignments(nodeID, leading);
      count := |list|;
    }

    /** One heartbeat of the node.  On the leader the node's own server takes it; elsewhere `remote` is
        what sending it to a manager yields, and what the answer says about managers is applied.  An
        answer replaces the cache: one that says the node was removed empties it. */
    method SendHeartbeat(
        id: string, role: Role, grpcAddr: string, agent: bool, now: Time,
        leading: Option<SandboxServer>, commit: Commit,
        remote: Beat -> Result<Response>, identity: Endpoints.IdentityStore, saved: bool)
      returns (sent: Beat, r: Result<Answer>, ghost keys: seq<string>, ghost countKeys: seq<string>)
      requires Valid() && (leading.Some? ==> leading.value.Valid() && this !in leading.value.store.objs.All())
      modifies this, identity
      modifies if leading.Some? then {leading.value.store as object, leading.value.tracker as object} else {}
      ensures Valid() && (leading.Some? ==> leading.value.Valid())
      ensures sent.nodeID == id && sent.grpcAddr == grpcAddr
      ensures cached == if r.Done? then ListOf(r.value) else old(cached)
      ensures leading.Some? ==>
        var server, before := leading.value, old(leading.value.store.state);
        && identity.state == old(identity.state)
        && IsKeyOrder(keys, before.sandboxes.records.Keys)
        && Outcome(server.store.state, server.tracker.nodes, r)
             == Control.LocalHeartbeat(before, old(server.tracker.nodes), now, role, sent, keys, commit)
        && (agent ==>
              && IsKeyOrder(countKeys, before.sandboxes.records.Keys)
              && (forall k :: k in countKeys ==> k in before.sandboxes.records)
              && sent.count == |Fsm.SandboxesByNode(before.sandboxes.records, countKeys, id)|)
        && (!agent ==> sent.count == 0)
      ensures leading.None? ==>
        && r == AnswerOf(remote(sent))
        && sent.count == (if agent then |old(cached)| else 0)
        && identity.state == match remote(sent)
             case Done(v) => if saved then Endpoints.Applied(old(identity.state), v.leader, v.managers)
                             else old(identity.state)
             case Failed(_) => old(identity.state)
    {
      hide Holds, Beating, Endpoints.Applied, Fsm.SandboxesByNode;
      var count;
      count, countKeys := Count(id, agent, if leading.Some? then Some(leading.value.store) else None);
      sent, keys := Beat(id, grpcAddr, count), [];
      if leading.Some? {
        r, keys := leading.value.LocalHeartbeat(role, sent, now, commit);
        if r.Done? {
          CacheAssigned(ListOf(r.value));
        }
        return;
      }
      var response := remote(sent);
      if response.Failed? {
        r := Failed(response.why);
        return;
      }
      identity.ApplyManagerEndpoints(response.value.leader, response.value.managers, saved);
      CacheAssigned(ListOf(response.value.answer));
      r := Done(response.value.answer);
    }
  }
}
