/** The assignment-fencing protocol as a transition system: the leader's store, clock and quarantine,
    what every node was told, and the status reports under way.

    Messages are never taken out of flight, so a step may deliver them late, twice or out of order.
    A step whose message is not in flight, or whose list order is not one of the store, does
    nothing. */
module Protocol {
  import opened Records
  import opened Seqs
  import opened Control
  import Scheduler
  import Vacate
  import Fsm
  import FsmIndex
  import Eviction
  import Quarantine

  /** A status report of a node; it carries the generation of the assignment the node works on. */
  datatype Report = Report(sender: string, id: string, generation: int, status: Status)

  /** The assignments a heartbeat was answered with. */
  datatype Reply = Reply(nodeID: string, list: seq<Sandbox>)

  /** The state.  `used` holds the identifiers ever tried in a create request, `cached` and `working`
      what each node last received and what its agent works from.  `owner` and `moved` are history
      variables: the node each assignment was made to, and when a sandbox last changed nodes. */
  datatype World = World(
    now: Time,
    fsm: Fsm.State,
    quarantine: Quarantine.Counts,
    used: set<string>,
    replies: set<Reply>,
    cached: map<string, seq<Sandbox>>,
    working: map<string, seq<Sandbox>>,
    reports: set<Report>,
    owner: map<(string, int), string>,
    moved: map<string, Time>)

  const START := World(0, Fsm.EMPTY, map[], {}, {}, map[], map[], {}, map[], map[])

  datatype Step =
    | Tick(dt: nat)
    | CreateSandbox(
        req: CreateRequest, generated: Option<string>, nodeKeys: seq<string>, sandboxKeys: seq<string>, commit: Commit)
    | Start(id: string, commit: Commit)
    | Stop(id: string, commit: Commit)
    | RemoveSandbox(id: string, commit: Commit)
    | Beat(peer: Certificate, beat: Control.Beat, sandboxKeys: seq<string>, commit: Commit)
    | LocalBeat(role: Role, beat: Control.Beat, sandboxKeys: seq<string>, commit: Commit)
    | ReceiveReply(reply: Reply)
    | Fetch(nodeID: string)
    | FetchAsLeader(nodeID: string, sandboxKeys: seq<string>)
    | Send(report: Report)
    | Deliver(report: Report, peer: Certificate, commit: Commit)
    | Evict(nodeKeys: seq<string>, sandboxKeys: seq<string>, outcome: nat -> Commit)
    | UpdateNode(node: Node, commit: Commit)
    | DeleteNode(id: string, commit: Commit)
    | Admin(cmd: Fsm.Command)
    | ChangeLeader(quarantine: Quarantine.Counts)

  // ---------------------------------------------------------------- steps

  ghost predicate NodeOrder(w: World, keys: seq<string>) {
    IsKeyOrder(keys, w.fsm.nodes.Keys)
  }

  ghost predicate SandboxOrder(w: World, keys: seq<string>) {
    IsKeyOrder(keys, w.fsm.sandboxes.records.Keys)
  }

  /** The commands of the administration: all but those the other steps issue. */
  predicate IsAdmin(cmd: Fsm.Command) {
    !cmd.SaveSandbox? && !cmd.DeleteSandbox? && !cmd.SaveNode? && !cmd.DeleteNode?
  }

  /** Other writes of a node record keep the heartbeat stamp of the record they replace; a joining
      node has none. */
  function Stamped(w: World, n: Node): Node {
    n.(heartbeatAt := if n.id in w.fsm.nodes then w.fsm.nodes[n.id].heartbeatAt else None)
  }

  function Answered(w: World, nodeID: string, o: Outcome<Answer>): World {
    w.(fsm := o.fsm, quarantine := o.quarantine,
       replies := if o.result.Done? then w.replies + {Reply(nodeID, ListOf(o.result.value))} else w.replies)
  }

  /** Whether the step leaves the store alone. */
  predicate OffStore(step: Step) {
    step.Tick? || step.ReceiveReply? || step.Fetch? || step.FetchAsLeader? || step.Send? || step.ChangeLeader?
  }

  ghost function ActOffStore(w: World, step: Step): World
    requires OffStore(step)
  {
    match step
    case Tick(dt) => w.(now := w.now + dt)
    case ReceiveReply(reply) =>
      if reply !in w.replies then w else w.(cached := w.cached[reply.nodeID := reply.list])
    case Fetch(nodeID) =>
      w.(working := w.working[nodeID := if nodeID in w.cached then w.cached[nodeID] else []])
    case FetchAsLeader(nodeID, keys) =>
      if !SandboxOrder(w, keys) then w
      else
        OrderMembers(keys, w.fsm.sandboxes.records.Keys);
        w.(working := w.working[nodeID := Fsm.SandboxesByNode(w.fsm.sandboxes.records, keys, nodeID)])
    case Send(report) =>
      if WorksOn(w, report.sender, report.id, report.generation) then w.(reports := w.reports + {report}) else w
    case ChangeLeader(quarantine) => w.(quarantine := quarantine)
  }

  /** What the leader holds. */
  datatype Held = Held(fsm: Fsm.State, quarantine: Quarantine.Counts, used: set<string>)

  ghost function ActOnStore(w: World, step: Step): Held
    requires !OffStore(step) && !step.Beat? && !step.LocalBeat?
  {
    var same := Held(w.fsm, w.quarantine, w.used);
    match step
    case CreateSandbox(req, generated, nodeKeys, sandboxKeys, commit) =>
      var id := Identifier(req, generated);
      if id.None? || id.value in w.used || !NodeOrder(w, nodeKeys) || !SandboxOrder(w, sandboxKeys) then same
      else
        same.(used := w.used + {id.value},
              fsm := Create(w.fsm, w.quarantine.Keys, w.now, req, generated, nodeKeys, sandboxKeys, commit).0)
    case Start(id, commit) => same.(fsm := SetDesired(w.fsm, w.now, id, DesiredRunning, commit).0)
    case Stop(id, commit) => same.(fsm := SetDesired(w.fsm, w.now, id, DesiredStopped, commit).0)
    case RemoveSandbox(id, commit) => same.(fsm := Remove(w.fsm, id, commit).0)
    case Deliver(report, peer, commit) =>
      if report !in w.reports || !(peer.name == report.sender || peer.manager) then same
      else
        same.(fsm := UpdateSandboxStatus(
                       w.fsm, w.now, peer, report.id, report.generation, report.status, commit).0)
    case Evict(nodeKeys, sandboxKeys, outcome) =>
      if !NodeOrder(w, nodeKeys) || !SandboxOrder(w, sandboxKeys) then same
      else
        var decisions := Decisions(w.fsm, w.quarantine.Keys, w.now, nodeKeys, sandboxKeys);
        var (fsm, quarantine) := SaveAll(w.fsm, w.quarantine, decisions, Outcomes(outcome, |decisions|));
        same.(fsm := fsm, quarantine := quarantine)
    case UpdateNode(n, commit) => same.(fsm := Save(w.fsm, Fsm.SaveNode(Stamped(w, n)), commit).0)
    case DeleteNode(id, commit) => same.(fsm := Save(w.fsm, Fsm.DeleteNode(id), commit).0)
    case Admin(cmd) => if IsAdmin(cmd) then same.(fsm := Fsm.Apply(w.fsm, cmd).0) else same
  }

  /** A heartbeat, of a node or of the leader's own node. */
  ghost function ActBeat(w: World, step: Step): World
    requires step.Beat? || step.LocalBeat?
  {
    if !SandboxOrder(w, step.sandboxKeys) then w
    else if step.Beat? then
      Answered(w, step.beat.nodeID,
               Heartbeat(w.fsm, w.quarantine, w.now, step.peer, step.beat, step.sandboxKeys, step.commit))
    else
      Answered(w, step.beat.nodeID,
               LocalHeartbeat(w.fsm, w.quarantine, w.now, step.role, step.beat, step.sandboxKeys, step.commit))
  }

  ghost function Act(w: World, step: Step): World {
    if OffStore(step) then ActOffStore(w, step)
    else if step.Beat? || step.LocalBeat? then ActBeat(w, step)
    else
      var held := ActOnStore(w, step);
      w.(fsm := held.fsm, quarantine := held.quarantine, used := held.used)
  }

  /** The node's agent works from a list that assigns it the sandbox at this generation. */
  ghost predicate WorksOn(w: World, nodeID: string, id: string, generation: int) {
    nodeID in w.working && exists sb :: sb in w.working[nodeID] && sb.id == id && sb.generation == generation
  }

  function Owners(records: map<string, Sandbox>): map<(string, int), string> {
    map id | id in records :: (id, records[id].generation) := records[id].nodeID
  }

  predicate ChangesNode(before: Fsm.State, after: Fsm.State, id: string) {
    && id in before.sandboxes.records && id in after.sandboxes.records
    && before.sandboxes.records[id].nodeID != after.sandboxes.records[id].nodeID
  }

  /** What the history records about a step that led to `after`. */
  function Recorded(w: World, after: World): World {
    after.(owner := w.owner + Owners(after.fsm.sandboxes.records),
           moved := map id | id in w.moved.Keys + after.fsm.sandboxes.records.Keys
                             && (id in w.moved || ChangesNode(w.fsm, after.fsm, id)) ::
                      if ChangesNode(w.fsm, after.fsm, id) then w.now else w.moved[id])
  }

  ghost function Do(w: World, step: Step): World {
    Recorded(w, Act(w, step))
  }

  // ---------------------------------------------------------------- what the quarantine hears

  /** The heartbeat a step notes. */
  function NoteOf(id: string, o: Outcome<Answer>): seq<Quarantine.Event> {
    if o.result.Done? && o.result.value.Assigned? then [Quarantine.Noted(id)] else []
  }

  /** The marks and heartbeats of one step. */
  ghost function EventsOf(w: World, step: Step): seq<Quarantine.Event> {
    match step
    case Beat(peer, beat, keys, commit) =>
      if !SandboxOrder(w, keys) then []
      else NoteOf(beat.nodeID, Heartbeat(w.fsm, w.quarantine, w.now, peer, beat, keys, commit))
    case LocalBeat(role, beat, keys, commit) =>
      if !SandboxOrder(w, keys) then []
      else NoteOf(beat.nodeID, LocalHeartbeat(w.fsm, w.quarantine, w.now, role, beat, keys, commit))
    case Evict(nodeKeys, sandboxKeys, outcome) =>
      if !NodeOrder(w, nodeKeys) || !SandboxOrder(w, sandboxKeys) then []
      else
        var decisions := Decisions(w.fsm, w.quarantine.Keys, w.now, nodeKeys, sandboxKeys);
        Eviction.Marks(w.fsm, decisions, Outcomes(outcome, |decisions|))
    case _ => []
  }

  // ---------------------------------------------------------------- runs

  /** A step of a run, the marks and heartbeats it makes, and the state it leads to. */
  datatype Moment = Moment(step: Step, events: seq<Quarantine.Event>, after: World)

  type Trace = seq<Moment>

  /** The state after the first `k` steps. */
  ghost function At(t: Trace, k: nat): World
    requires k <= |t|
  {
    if k == 0 then START else t[k - 1].after
  }

  /** Moment `i` is what the step makes of the state before it. */
  ghost predicate Linked(t: Trace, i: int)
    requires 0 <= i < |t|
  {
    t[i].after == Do(At(t, i), t[i].step) && t[i].events == EventsOf(At(t, i), t[i].step)
  }

  ghost predicate IsRun(t: Trace) {
    forall i {:trigger Linked(t, i)} :: 0 <= i < |t| ==> Linked(t, i)
  }

  /** Every sequence of steps makes a run, so what holds for all runs holds for all interleavings. */
  lemma {:induction false} EveryScheduleRuns(steps: seq<Step>) returns (t: Trace)
    ensures IsRun(t) && |t| == |steps| && forall i :: 0 <= i < |t| ==> t[i].step == steps[i]
  {
    hide Do, EventsOf;
    if |steps| == 0 {
      t := [];
    } else {
      var step := steps[|steps| - 1];
      var init := EveryScheduleRuns(steps[..|steps| - 1]);
      var w := At(init, |init|);
      t := init + [Moment(step, EventsOf(w, step), Do(w, step))];
      forall i | 0 <= i < |t| ensures Linked(t, i) {
        assert At(t, i) == At(init, i);
        if i < |init| {
          assert Linked(init, i);
        }
      }
    }
  }

  lemma RunStep(t: Trace, i: nat)
    requires IsRun(t) && i < |t|
    ensures At(t, i + 1) == Do(At(t, i), t[i].step) && t[i].events == EventsOf(At(t, i), t[i].step)
  {
    hide Do, EventsOf;
    assert Linked(t, i);
  }

  // ---------------------------------------------------------------- how a step may change the store

  ghost predicate SameAssignment(a: Sandbox, b: Sandbox) {
    a.nodeID == b.nodeID && a.generation == b.generation
  }

  /** A move: from one node to another, live and not held off, with the next generation. */
  ghost predicate Moved(a: Sandbox, b: Sandbox, nodes: map<string, Node>, now: Time, held: set<string>) {
    && a.nodeID != "" && b.nodeID != a.nodeID
    && b.generation == Vacate.NextGeneration(a.generation)
    && Eviction.LiveTarget(nodes, b.nodeID, now, held)
  }

  /** Stored sandboxes keep their name, and keep their assignment or, in an eviction round, move; new
      ones have an identifier never used before and generation one. */
  ghost predicate AdvancesSandboxes(w: World, after: World, evicting: bool) {
    var t, t' := w.fsm.sandboxes.records, after.fsm.sandboxes.records;
    forall id :: id in t' ==>
      if id in t then
        && t'[id].name == t[id].name
        && (|| SameAssignment(t[id], t'[id])
            || (evicting && Moved(t[id], t'[id], w.fsm.nodes, w.now, w.quarantine.Keys)))
      else id in after.used - w.used && t'[id].generation == 1
  }

  /** A heartbeat stamp stays as it is or becomes the present; a node without a record starts without
      one. */
  ghost predicate AdvancesNodes(w: World, after: World) {
    var t, t' := w.fsm.nodes, after.fsm.nodes;
    forall id :: id in t' ==>
      t'[id].heartbeatAt == (if id in t then t[id].heartbeatAt else None) || t'[id].heartbeatAt == Some(w.now)
  }

  ghost predicate Advances(w: World, after: World, evicting: bool) {
    && w.now <= after.now && w.used <= after.used
    && AdvancesSandboxes(w, after, evicting)
    && AdvancesNodes(w, after)
  }

  /** A state the log can produce. */
  ghost predicate Logged(fsm: Fsm.State) {
    exists log :: Fsm.Exec(Fsm.EMPTY, log).0 == fsm
  }

  lemma LoggedIsSound(fsm: Fsm.State)
    requires Logged(fsm)
    ensures FsmIndex.Keyed(fsm) && FsmIndex.NamesClaimed(fsm.sandboxes) && Eviction.AllFiled(fsm)
  {
    var log :| Fsm.Exec(Fsm.EMPTY, log).0 == fsm;
    FsmIndex.NamesAreUnique(log);
    Eviction.ReachableIsFiled(log);
  }

  lemma LoggedApply(fsm: Fsm.State, cmd: Fsm.Command)
    requires Logged(fsm)
    ensures Logged(Fsm.Apply(fsm, cmd).0)
  {
    var log :| Fsm.Exec(Fsm.EMPTY, log).0 == fsm;
    Fsm.ExecStep(Fsm.EMPTY, log, cmd);
    hide Fsm.Apply;
    assert Fsm.Exec(Fsm.EMPTY, log + [cmd]).0 == Fsm.Apply(fsm, cmd).0;
  }

  lemma LoggedSave(fsm: Fsm.State, cmd: Fsm.Command, commit: Commit)
    requires Logged(fsm)
    ensures Logged(Save(fsm, cmd, commit).0)
  {
    hide Fsm.Apply, Logged;
    LoggedApply(fsm, cmd);
  }

  lemma {:induction false} LoggedSaveAll(
      fsm: Fsm.State, quarantine: Quarantine.Counts, decisions: seq<Vacate.Decision>, commits: seq<Commit>)
    requires Logged(fsm) && |commits| == |decisions|
    ensures Logged(SaveAll(fsm, quarantine, decisions, commits).0)
  {
    hide Save, Logged;
    if |decisions| > 0 {
      var last := |decisions| - 1;
      LoggedSaveAll(fsm, quarantine, decisions[..last], commits[..last]);
      LoggedSave(SaveAll(fsm, quarantine, decisions[..last], commits[..last]).0,
                 Fsm.SaveSandbox(decisions[last].sandbox), commits[last]);
    }
  }

  // ---------------------------------------------------------------- every step advances

  lemma SaveSandboxAdvances(w: World, sb: Sandbox, commit: Commit, after: World)
    requires after == w.(fsm := Save(w.fsm, Fsm.SaveSandbox(sb), commit).0)
    requires Eviction.Renames(w.fsm, sb) && SameAssignment(w.fsm.sandboxes.records[sb.id], sb)
    ensures Advances(w, after, false)
  {
    hide Save;
    Eviction.SaveFrame(w.fsm, sb, commit);
  }

  lemma SaveNodeAdvances(w: World, n: Node, commit: Commit, after: World)
    requires after.fsm == Save(w.fsm, Fsm.SaveNode(n), commit).0 && after.now == w.now && after.used == w.used
    requires n.heartbeatAt == Some(w.now) || n == Stamped(w, n)
    ensures Advances(w, after, false)
  {
  }

  /** Filing a new sandbox, or nothing, under an identifier that is now used. */
  lemma FilingAdvances(w: World, sb: Sandbox, commit: Commit)
    requires sb.id !in w.used && sb.generation == 1 && w.fsm.sandboxes.records.Keys <= w.used
    ensures Advances(w, w.(used := w.used + {sb.id}), false)
    ensures Advances(w, w.(used := w.used + {sb.id}, fsm := Save(w.fsm, Fsm.SaveSandbox(sb), commit).0), false)
  {
    hide Save, Vacate.NextGeneration, Moved;
    Eviction.SaveFrame(w.fsm, sb, commit);
  }

  lemma CreateAdvances(
      w: World, req: CreateRequest, generated: Option<string>, nodeKeys: seq<string>, sandboxKeys: seq<string>,
      commit: Commit)
    requires NodeOrder(w, nodeKeys) && SandboxOrder(w, sandboxKeys)
    requires var id := Identifier(req, generated);
      id.Some? && id.value !in w.used && w.fsm.sandboxes.records.Keys <= w.used
    ensures
      var fsm := Create(w.fsm, w.quarantine.Keys, w.now, req, generated, nodeKeys, sandboxKeys, commit).0;
      && Advances(w, w.(used := w.used + {Identifier(req, generated).value}, fsm := fsm), false)
      && (Logged(w.fsm) ==> Logged(fsm))
  {
    hide Save, Logged, Advances, Scheduler.SelectNode, PinNode, ValidSpec, Fsm.ByName, NamedVolumesOf, Listing;
    var id := Identifier(req, generated).value;
    OrderMembers(nodeKeys, w.fsm.nodes.Keys);
    OrderMembers(sandboxKeys, w.fsm.sandboxes.records.Keys);
    var chosen := Scheduler.SelectNode(
      Listing(nodeKeys, w.fsm.nodes), Listing(sandboxKeys, w.fsm.sandboxes.records), w.now, w.quarantine.Keys);
    var pinned := PinNode(w.fsm.volumes, req.spec.NamedVolumeNames(), chosen);
    var sb := NewSandbox(req, id, if pinned.Done? then pinned.value else "", w.now);
    FilingAdvances(w, sb, commit);
    if Logged(w.fsm) {
      LoggedSave(w.fsm, Fsm.SaveSandbox(sb), commit);
    }
  }

  lemma SetDesiredAdvances(w: World, id: string, desired: DesiredState, commit: Commit)
    requires FsmIndex.Keyed(w.fsm) && Eviction.AllFiled(w.fsm)
    ensures Advances(w, w.(fsm := SetDesired(w.fsm, w.now, id, desired, commit).0), false)
    ensures Logged(w.fsm) ==> Logged(SetDesired(w.fsm, w.now, id, desired, commit).0)
  {
    hide Save, Logged;
    if id in w.fsm.sandboxes.records {
      var sb := w.fsm.sandboxes.records[id].(desired := desired, updatedAt := w.now);
      SaveSandboxAdvances(w, sb, commit, w.(fsm := Save(w.fsm, Fsm.SaveSandbox(sb), commit).0));
      if Logged(w.fsm) {
        LoggedSave(w.fsm, Fsm.SaveSandbox(sb), commit);
      }
    }
  }

  lemma RemoveAdvances(w: World, id: string, commit: Commit)
    ensures Advances(w, w.(fsm := Remove(w.fsm, id, commit).0), false)
    ensures Logged(w.fsm) ==> Logged(Remove(w.fsm, id, commit).0)
  {
    if Logged(w.fsm) {
      LoggedSave(w.fsm, Fsm.DeleteSandbox(id), commit);
    }
  }

  lemma ReportAdvances(w: World, peer: Certificate, report: Report, commit: Commit)
    requires FsmIndex.Keyed(w.fsm) && Eviction.AllFiled(w.fsm)
    ensures var fsm := UpdateSandboxStatus(w.fsm, w.now, peer, report.id, report.generation, report.status, commit).0;
      Advances(w, w.(fsm := fsm), false) && (Logged(w.fsm) ==> Logged(fsm))
  {
    hide Save, Logged;
    if report.id in w.fsm.sandboxes.records {
      var sb := Reported(w.fsm.sandboxes.records[report.id], report.status, w.now);
      SaveSandboxAdvances(w, sb, commit, w.(fsm := Save(w.fsm, Fsm.SaveSandbox(sb), commit).0));
      if Logged(w.fsm) {
        LoggedSave(w.fsm, Fsm.SaveSandbox(sb), commit);
      }
    }
  }

  lemma BeatingAdvances(
      w: World, n: Node, beat: Control.Beat, keys: seq<string>, commit: Commit)
    requires forall k :: k in keys ==> k in w.fsm.sandboxes.records
    ensures var o := Beating(w.fsm, w.quarantine, n, w.now, beat, keys, commit);
      Advances(w, Answered(w, beat.nodeID, o), false) && (Logged(w.fsm) ==> Logged(o.fsm))
  {
    hide Save, Logged, Fsm.SandboxesByNode;
    var o := Beating(w.fsm, w.quarantine, n, w.now, beat, keys, commit);
    SaveNodeAdvances(w, Beaten(n, beat, w.now), commit, Answered(w, beat.nodeID, o));
    if Logged(w.fsm) {
      LoggedSave(w.fsm, Fsm.SaveNode(Beaten(n, beat, w.now)), commit);
    }
  }

  lemma EvictAdvances(w: World, nodeKeys: seq<string>, sandboxKeys: seq<string>, commits: seq<Commit>)
    requires FsmIndex.Keyed(w.fsm) && Eviction.AllFiled(w.fsm) && NodeOrder(w, nodeKeys) && SandboxOrder(w, sandboxKeys)
    requires |commits| == |Decisions(w.fsm, w.quarantine.Keys, w.now, nodeKeys, sandboxKeys)|
    ensures
      var decisions := Decisions(w.fsm, w.quarantine.Keys, w.now, nodeKeys, sandboxKeys);
      var (fsm, quarantine) := SaveAll(w.fsm, w.quarantine, decisions, commits);
      Advances(w, w.(fsm := fsm, quarantine := quarantine), true) && (Logged(w.fsm) ==> Logged(fsm))
  {
    hide SaveAll, Decisions, Logged, Advances, SameAssignment, Moved, Eviction.FitsStore, Eviction.SavedSome;
    hide Eviction.Renames, Eviction.AllFiled;
    var decisions := Decisions(w.fsm, w.quarantine.Keys, w.now, nodeKeys, sandboxKeys);
    Eviction.DecisionsFitStore(w.fsm, w.quarantine.Keys, w.now, nodeKeys, sandboxKeys);
    forall d | d in decisions
      ensures Eviction.Renames(w.fsm, d.sandbox) && d.sandbox.id in w.fsm.sandboxes.records
      ensures SameAssignment(w.fsm.sandboxes.records[d.sandbox.id], d.sandbox)
        || Moved(w.fsm.sandboxes.records[d.sandbox.id], d.sandbox, w.fsm.nodes, w.now, w.quarantine.Keys)
    {
      Eviction.FittingRenames(w.fsm, w.quarantine.Keys, w.now, d);
      DecisionAdvances(w, d);
    }
    Eviction.SaveAllSavesSome(w.fsm, w.quarantine, decisions, commits);
    var (fsm, quarantine) := SaveAll(w.fsm, w.quarantine, decisions, commits);
    SavedSomeAdvances(w, fsm, quarantine, decisions);
    if Logged(w.fsm) {
      LoggedSaveAll(w.fsm, w.quarantine, decisions, commits);
    }
  }

  lemma SavedSomeAdvances(
      w: World, fsm: Fsm.State, quarantine: Quarantine.Counts, decisions: seq<Vacate.Decision>)
    requires Eviction.SavedSome(w.fsm, fsm, decisions)
    requires forall d :: d in decisions ==>
      && d.sandbox.id in w.fsm.sandboxes.records && Eviction.Renames(w.fsm, d.sandbox)
      && (|| SameAssignment(w.fsm.sandboxes.records[d.sandbox.id], d.sandbox)
          || Moved(w.fsm.sandboxes.records[d.sandbox.id], d.sandbox, w.fsm.nodes, w.now, w.quarantine.Keys))
    ensures Advances(w, w.(fsm := fsm, quarantine := quarantine), true)
  {
    hide Eviction.LiveTarget, Vacate.NextGeneration;
  }

  lemma DecisionAdvances(w: World, d: Vacate.Decision)
    requires Eviction.FitsStore(w.fsm, w.quarantine.Keys, w.now, d)
    ensures d.sandbox.id in w.fsm.sandboxes.records
    ensures SameAssignment(w.fsm.sandboxes.records[d.sandbox.id], d.sandbox)
      || Moved(w.fsm.sandboxes.records[d.sandbox.id], d.sandbox, w.fsm.nodes, w.now, w.quarantine.Keys)
  {
    hide Eviction.LiveTarget, Scheduler.Silent;
  }

  lemma AdminAdvances(w: World, cmd: Fsm.Command)
    requires IsAdmin(cmd)
    ensures Advances(w, w.(fsm := Fsm.Apply(w.fsm, cmd).0), false)
  {
    FsmIndex.ApplyByTable(w.fsm, cmd);
    hide Fsm.Apply;
  }

  lemma BeatAdvances(w: World, step: Step)
    requires FsmIndex.Keyed(w.fsm)
    requires step.Beat? || step.LocalBeat?
    ensures Advances(w, Act(w, step), false) && (Logged(w.fsm) ==> Logged(Act(w, step).fsm))
  {
    hide Beating, Logged, Advances;
    Still(w);
    if SandboxOrder(w, step.sandboxKeys) {
      OrderMembers(step.sandboxKeys, w.fsm.sandboxes.records.Keys);
      var id := step.beat.nodeID;
      if id in w.fsm.nodes {
        BeatingAdvances(w, w.fsm.nodes[id], step.beat, step.sandboxKeys, step.commit);
      } else if step.LocalBeat? {
        BeatingAdvances(w, OwnRecord(id, step.role), step.beat, step.sandboxKeys, step.commit);
      } else {
        SameStoreAdvances(w, Act(w, step));
      }
    }
  }

  lemma OffStoreAdvances(w: World, step: Step)
    requires OffStore(step)
    ensures Advances(w, Act(w, step), false) && Act(w, step).fsm == w.fsm
  {
    hide Advances, Fsm.SandboxesByNode;
    SameStoreAdvances(w, Act(w, step));
  }

  lemma OnStoreAdvances(w: World, step: Step)
    requires !OffStore(step) && !step.Beat? && !step.LocalBeat?
    requires FsmIndex.Keyed(w.fsm) && Eviction.AllFiled(w.fsm) && Logged(w.fsm)
    requires w.fsm.sandboxes.records.Keys <= w.used
    ensures Advances(w, Act(w, step), step.Evict?) && Logged(Act(w, step).fsm)
  {
    hide Save, SaveAll, Create, SetDesired, Remove, UpdateSandboxStatus, Decisions, Logged, Advances, Fsm.Apply;
    hide FsmIndex.Keyed, ActOffStore, ActBeat;
    Still(w);
    match step
    case CreateSandbox(req, generated, nodeKeys, sandboxKeys, commit) =>
      if Act(w, step) != w {
        CreateAdvances(w, req, generated, nodeKeys, sandboxKeys, commit);
      }
    case Start(id, commit) => SetDesiredAdvances(w, id, DesiredRunning, commit);
    case Stop(id, commit) => SetDesiredAdvances(w, id, DesiredStopped, commit);
    case RemoveSandbox(id, commit) => RemoveAdvances(w, id, commit);
    case Deliver(report, peer, commit) => ReportAdvances(w, peer, report, commit);
    case Evict(nodeKeys, sandboxKeys, outcome) =>
      if NodeOrder(w, nodeKeys) && SandboxOrder(w, sandboxKeys) {
        var decisions := Decisions(w.fsm, w.quarantine.Keys, w.now, nodeKeys, sandboxKeys);
        EvictAdvances(w, nodeKeys, sandboxKeys, Outcomes(outcome, |decisions|));
      }
    case UpdateNode(n, commit) =>
      SaveNodeAdvances(w, Stamped(w, n), commit, Act(w, step));
      LoggedSave(w.fsm, Fsm.SaveNode(Stamped(w, n)), commit);
    case DeleteNode(id, commit) =>
      DeleteNodeAdvances(w, id, commit);
      LoggedSave(w.fsm, Fsm.DeleteNode(id), commit);
    case Admin(cmd) =>
      if IsAdmin(cmd) {
        AdminAdvances(w, cmd);
        LoggedApply(w.fsm, cmd);
      }
  }

  /** Every step advances the store, and keeps it a state the log can produce. */
  lemma ActAdvances(w: World, step: Step)
    requires Logged(w.fsm) && w.fsm.sandboxes.records.Keys <= w.used
    ensures Advances(w, Act(w, step), step.Evict?) && Logged(Act(w, step).fsm)
  {
    hide Act, Logged, Advances;
    LoggedIsSound(w.fsm);
    if OffStore(step) {
      OffStoreAdvances(w, step);
    } else if step.Beat? || step.LocalBeat? {
      BeatAdvances(w, step);
    } else {
      OnStoreAdvances(w, step);
    }
  }

  lemma Still(w: World)
    ensures Advances(w, w, false) && Advances(w, w, true)
  {
  }

  lemma SameStoreAdvances(w: World, after: World)
    requires after.fsm == w.fsm && after.used == w.used && w.now <= after.now
    ensures Advances(w, after, false)
  {
  }

  lemma DeleteNodeAdvances(w: World, id: string, commit: Commit)
    ensures Advances(w, w.(fsm := Save(w.fsm, Fsm.DeleteNode(id), commit).0), false)
  {
  }
}
