/** The handlers of the leader, as functions on the replicated state.

    Each handler is one step: what it read is still true when its save commits.  `SplitHandlers` shows
    what is lost without that. */
module Control {
  import opened Records
  import opened Seqs
  import opened Vacate
  import Fsm
  import Scheduler
  import Quarantine

  datatype Failure =
    | InvalidArgument | AlreadyExists | Missing | PermissionDenied | FailedPrecondition | Unavailable | Internal

  datatype Result<T> = Done(value: T) | Failed(why: Failure)

  // ---------------------------------------------------------------- saving through the log

  /** What becomes of a command: it is committed and confirmed; or the caller does not lead and it is not
      handed to the log; or it is handed over and the caller is told of an error, without or although it
      is committed. */
  datatype Commit = Confirmed | NotLeader | Lost | Unconfirmed

  /** Whether the command is committed. */
  predicate Happens(commit: Commit) {
    commit.Confirmed? || commit.Unconfirmed?
  }

  /** What the caller is told of a command that is not confirmed. */
  function Told(commit: Commit): Failure {
    if commit.NotLeader? then Unavailable else Internal
  }

  function MapStoreErr(r: Fsm.Response): Failure {
    match r
    case AlreadyInitialized => AlreadyExists
    case NotInitialized => FailedPrecondition
    case NotFound => Missing
    case NameExists => AlreadyExists
    case _ => Internal
  }

  /** The state after the command and, if the caller is told of a failure, the failure. */
  function Save(fsm: Fsm.State, cmd: Fsm.Command, commit: Commit): (Fsm.State, Option<Failure>) {
    if !Happens(commit) then (fsm, Some(Told(commit)))
    else
      var (fsm', r) := Fsm.Apply(fsm, cmd);
      (fsm', if commit.Unconfirmed? then Some(Told(commit)) else if r != Fsm.Ok then Some(MapStoreErr(r)) else None)
  }

  /** Saving a node record leaves the sandboxes alone. */
  lemma SaveNodeKeepsSandboxes(fsm: Fsm.State, n: Node, commit: Commit)
    ensures Save(fsm, Fsm.SaveNode(n), commit).0.sandboxes == fsm.sandboxes
  {
  }

  // ---------------------------------------------------------------- creating a sandbox

  predicate Blank(c: char) {
    c == ' ' || c == '\t' || c == '\n' || c == '\r' || c == '\U{000B}' || c == '\U{000C}'
  }

  function TrimLeft(s: string): string {
    if |s| > 0 && Blank(s[0]) then TrimLeft(s[1..]) else s
  }

  function TrimRight(s: string): string {
    if |s| > 0 && Blank(s[|s| - 1]) then TrimRight(s[..|s| - 1]) else s
  }

  /** The checks of the specification on the fields modelled here. */
  predicate ValidSpec(spec: Spec) {
    var name := TrimRight(TrimLeft(spec.name));
    && name != "" && |name| <= 128
    && forall m :: m in spec.mounts && m.kind.NamedMount? ==> m.name != ""
  }

  /** A request to create a sandbox under an identifier; `wellFormed` stands for the checks on the
      parts of the specification that are not modelled. */
  datatype CreateRequest = CreateRequest(id: string, spec: Spec, wellFormed: bool, labels: Labels, start: bool)

  /** A named volume overrides the scheduler's choice with the node it lives on; the first one that
      lives on a node decides. */
  function PinNode(volumes: Fsm.Table<Volume>, names: seq<string>, chosen: string): Result<string> {
    if |names| == 0 then Done(chosen)
    else
      match Fsm.ByName(volumes, names[0])
      case None => Failed(InvalidArgument)
      case Some(v) => if v.nodeID != "" then Done(v.nodeID) else PinNode(volumes, names[1..], chosen)
  }

  /** The identifier of the new sandbox: the one of the request, else a generated one; generating may
      fail. */
  function Identifier(req: CreateRequest, generated: Option<string>): Option<string> {
    if req.id != "" then Some(req.id) else generated
  }

  function NewSandbox(req: CreateRequest, id: string, nodeID: string, now: Time): Sandbox {
    Sandbox(id, req.spec.name, req.spec, nodeID,
            if req.start then DesiredRunning else DesiredStopped,
            Status(PhaseCreated, "", "", None, None, Some(now)), req.labels, now, now, 1)
  }

  /** Creates a sandbox; the key orders are those in which the lists are read. */
  ghost function Create(
      fsm: Fsm.State, held: set<string>, now: Time, req: CreateRequest, generated: Option<string>,
      nodeKeys: seq<string>, sandboxKeys: seq<string>, commit: Commit) : (Fsm.State, Result<Sandbox>)
    requires IsKeyOrder(nodeKeys, fsm.nodes.Keys) && IsKeyOrder(sandboxKeys, fsm.sandboxes.records.Keys)
  {
    OrderMembers(nodeKeys, fsm.nodes.Keys);
    OrderMembers(sandboxKeys, fsm.sandboxes.records.Keys);
    if !req.wellFormed || !ValidSpec(req.spec) then (fsm, Failed(InvalidArgument))
    else if Fsm.ByName(fsm.sandboxes, req.spec.name).Some? then (fsm, Failed(AlreadyExists))
    else if Identifier(req, generated).None? then (fsm, Failed(Internal))
    else
      var chosen := Scheduler.SelectNode(
        Listing(nodeKeys, fsm.nodes), Listing(sandboxKeys, fsm.sandboxes.records), now, held);
      match PinNode(fsm.volumes, req.spec.NamedVolumeNames(), chosen)
      case Failed(why) => (fsm, Failed(why))
      case Done(nodeID) =>
        var sb := NewSandbox(req, Identifier(req, generated).value, nodeID, now);
        var (fsm', failure) := Save(fsm, Fsm.SaveSandbox(sb), commit);
        (fsm', if failure.Some? then Failed(failure.value) else Done(sb))
  }

  // ---------------------------------------------------------------- the other handlers

  /** Starts or stops a sandbox. */
  function SetDesired(fsm: Fsm.State, now: Time, id: string, desired: DesiredState, commit: Commit)
    : (Fsm.State, Result<Sandbox>)
  {
    if id !in fsm.sandboxes.records then (fsm, Failed(Missing))
    else
      var sb := fsm.sandboxes.records[id].(desired := desired, updatedAt := now);
      var (fsm', failure) := Save(fsm, Fsm.SaveSandbox(sb), commit);
      (fsm', if failure.Some? then Failed(failure.value) else Done(sb))
  }

  function Remove(fsm: Fsm.State, id: string, commit: Commit): (Fsm.State, Option<Failure>) {
    if id !in fsm.sandboxes.records then (fsm, Some(Missing)) else Save(fsm, Fsm.DeleteSandbox(id), commit)
  }

  /** The peer a certificate names, and whether the certificate has the manager role. */
  datatype Certificate = Certificate(name: string, manager: bool)

  /** A peer may speak for its own node; a manager may forward for any node. */
  predicate MaySpeakFor(peer: Certificate, nodeID: string) {
    (nodeID != "" && peer.name == nodeID) || peer.manager
  }

  datatype Beat = Beat(nodeID: string, grpcAddr: string, count: int)

  function Beaten(n: Node, beat: Beat, now: Time): Node {
    n.(grpcAddr := beat.grpcAddr, heartbeatAt := Some(now), sandboxCount := beat.count)
  }

  datatype Outcome<T> = Outcome(fsm: Fsm.State, quarantine: Quarantine.Counts, result: Result<T>)

  /** What a heartbeat is answered with: the node was removed, or the role it should have and its
      sandboxes. */
  datatype Answer = Removed | Assigned(role: Role, list: seq<Sandbox>)

  /** The sandboxes an answer carries; one that says the node was removed carries none. */
  function ListOf(answer: Answer): seq<Sandbox> {
    if answer.Assigned? then answer.list else []
  }

  ghost function Heartbeat(
      fsm: Fsm.State, quarantine: Quarantine.Counts, now: Time, peer: Certificate, beat: Beat,
      sandboxKeys: seq<string>, commit: Commit) : Outcome<Answer>
    requires IsKeyOrder(sandboxKeys, fsm.sandboxes.records.Keys)
  {
    OrderMembers(sandboxKeys, fsm.sandboxes.records.Keys);
    if beat.nodeID == "" then Outcome(fsm, quarantine, Failed(InvalidArgument))
    else if !MaySpeakFor(peer, beat.nodeID) then Outcome(fsm, quarantine, Failed(PermissionDenied))
    else if beat.nodeID !in fsm.nodes then Outcome(fsm, quarantine, Done(Removed))
    else Beating(fsm, quarantine, fsm.nodes[beat.nodeID], now, beat, sandboxKeys, commit)
  }

  /** The record the leader's own node files for itself if it has none. */
  function OwnRecord(id: string, role: Role): Node {
    Node(id, role, Accepted, Unset, map[], "", None, 0)
  }

  /** The heartbeat of the leader's own node. */
  ghost function LocalHeartbeat(
      fsm: Fsm.State, quarantine: Quarantine.Counts, now: Time, role: Role, beat: Beat,
      sandboxKeys: seq<string>, commit: Commit) : Outcome<Answer>
    requires IsKeyOrder(sandboxKeys, fsm.sandboxes.records.Keys)
  {
    OrderMembers(sandboxKeys, fsm.sandboxes.records.Keys);
    var n := if beat.nodeID in fsm.nodes then fsm.nodes[beat.nodeID]
             else OwnRecord(beat.nodeID, role);
    Beating(fsm, quarantine, n, now, beat, sandboxKeys, commit)
  }

  function Beating(
      fsm: Fsm.State, quarantine: Quarantine.Counts, n: Node, now: Time, beat: Beat,
      sandboxKeys: seq<string>, commit: Commit) : Outcome<Answer>
    requires forall k :: k in sandboxKeys ==> k in fsm.sandboxes.records
  {
    var (fsm', failure) := Save(fsm, Fsm.SaveNode(Beaten(n, beat, now)), commit);
    if failure.Some? then Outcome(fsm', quarantine, Failed(failure.value))
    else
      Outcome(fsm', Quarantine.Note(quarantine, beat.nodeID),
              Done(Assigned(n.role, Fsm.SandboxesByNode(fsm.sandboxes.records, sandboxKeys, beat.nodeID))))
  }

  /** A status report on one assignment of a sandbox. */
  function UpdateSandboxStatus(
      fsm: Fsm.State, now: Time, peer: Certificate, id: string, generation: int, status: Status, commit: Commit)
    : (Fsm.State, Option<Failure>)
  {
    if id !in fsm.sandboxes.records then (fsm, Some(Missing))
    else
      var sb := fsm.sandboxes.records[id];
      if sb.nodeID != "" && !MaySpeakFor(peer, sb.nodeID) then (fsm, Some(PermissionDenied))
      else if CheckAssignmentGeneration(sb.generation, generation).StaleAssignment? then
        (fsm, Some(FailedPrecondition))
      else
        Save(fsm, Fsm.SaveSandbox(Reported(sb, status, now)), commit)
  }

  function Reported(sb: Sandbox, status: Status, now: Time): Sandbox {
    sb.(status := status.(updatedAt := Some(now)), updatedAt := now)
  }

  // ---------------------------------------------------------------- eviction

  /** Saves one decision; a saved heartbeat decision puts its source in quarantine. */
  function SaveDecision(fsm: Fsm.State, quarantine: Quarantine.Counts, d: Decision, commit: Commit)
    : (Fsm.State, Quarantine.Counts)
  {
    var (fsm', failure) := Save(fsm, Fsm.SaveSandbox(d.sandbox), commit);
    (fsm', if failure.None? && d.reason.ReasonHeartbeat? then Quarantine.Mark(quarantine, d.source) else quarantine)
  }

  /** Saves the decisions one after the other. */
  function SaveAll(
      fsm: Fsm.State, quarantine: Quarantine.Counts, decisions: seq<Decision>, commits: seq<Commit>)
    : (end: (Fsm.State, Quarantine.Counts))
    requires |commits| == |decisions|
  {
    if |decisions| == 0 then (fsm, quarantine)
    else
      var last := |decisions| - 1;
      var (mid, q) := SaveAll(fsm, quarantine, decisions[..last], commits[..last]);
      SaveDecision(mid, q, decisions[last], commits[last])
  }

  /** What becomes of the first saves of a round. */
  function Outcomes(outcome: nat -> Commit, n: nat): (commits: seq<Commit>)
    ensures |commits| == n
    ensures forall i :: 0 <= i < n ==> commits[i] == outcome(i)
  {
    seq(n, i requires 0 <= i < n => outcome(i))
  }

  ghost function Decisions(
      fsm: Fsm.State, held: set<string>, now: Time, nodeKeys: seq<string>, sandboxKeys: seq<string>): seq<Decision>
    requires IsKeyOrder(nodeKeys, fsm.nodes.Keys) && IsKeyOrder(sandboxKeys, fsm.sandboxes.records.Keys)
  {
    OrderMembers(nodeKeys, fsm.nodes.Keys);
    OrderMembers(sandboxKeys, fsm.sandboxes.records.Keys);
    PlanVacate(Listing(nodeKeys, fsm.nodes), Listing(sandboxKeys, fsm.sandboxes.records), now, held)
  }

  // ---------------------------------------------------------------- what pinning means

  ghost predicate LivesOn(volumes: Fsm.Table<Volume>, name: string, nodeID: string) {
    var v := Fsm.ByName(volumes, name);
    v.Some? && v.value.nodeID == nodeID
  }

  /** Name `i` is the first one whose volume is missing or lives on a node. */
  ghost predicate Decides(volumes: Fsm.Table<Volume>, names: seq<string>, i: nat) {
    && i < |names|
    && !LivesOn(volumes, names[i], "")
    && forall k :: 0 <= k < i ==> LivesOn(volumes, names[k], "")
  }

  /** The first named volume that is missing or lives on a node decides: the request is refused, or
      the sandbox goes to that node. */
  lemma {:induction false} FirstVolumeDecides(volumes: Fsm.Table<Volume>, names: seq<string>, chosen: string, i: nat)
    requires Decides(volumes, names, i)
    ensures var v := Fsm.ByName(volumes, names[i]);
      PinNode(volumes, names, chosen) == if v.None? then Failed(InvalidArgument) else Done(v.value.nodeID)
  {
    if i > 0 {
      assert LivesOn(volumes, names[0], "");
      FirstVolumeDecides(volumes, names[1..], chosen, i - 1);
    }
  }

  /** Without such a volume the scheduler's choice stands. */
  lemma {:induction false} ChoiceStands(volumes: Fsm.Table<Volume>, names: seq<string>, chosen: string)
    requires forall n :: n in names ==> LivesOn(volumes, n, "")
    ensures PinNode(volumes, names, chosen) == Done(chosen)
  {
    if |names| > 0 {
      assert names[0] in names;
      ChoiceStands(volumes, names[1..], chosen);
    }
  }

  /** Read off the mounts: mount `i` is the first one that asks for a named volume which is missing or
      lives on a node. */
  ghost predicate MountDecides(volumes: Fsm.Table<Volume>, mounts: seq<Mount>, i: nat) {
    && i < |mounts| && AsksForVolume(mounts[i]) && !LivesOn(volumes, mounts[i].name, "")
    && forall k :: 0 <= k < i && AsksForVolume(mounts[k]) ==> LivesOn(volumes, mounts[k].name, "")
  }

  ghost predicate AsksForVolume(m: Mount) {
    m.kind == NamedMount && m.name != ""
  }

  lemma {:induction false} FirstMountDecides(volumes: Fsm.Table<Volume>, mounts: seq<Mount>, chosen: string, i: nat)
    requires MountDecides(volumes, mounts, i)
    ensures var v := Fsm.ByName(volumes, mounts[i].name);
      PinNode(volumes, NamedVolumesOf(mounts), chosen)
        == if v.None? then Failed(InvalidArgument) else Done(v.value.nodeID)
  {
    if i > 0 {
      FirstMountDecides(volumes, mounts[1..], chosen, i - 1);
      if AsksForVolume(mounts[0]) {
        assert NamedVolumesOf(mounts)[1..] == NamedVolumesOf(mounts[1..]);
      }
    }
  }

  /** If there is no such mount, the scheduler's choice stands. */
  lemma NoMountDecides(volumes: Fsm.Table<Volume>, mounts: seq<Mount>, chosen: string)
    requires forall m :: m in mounts && AsksForVolume(m) ==> LivesOn(volumes, m.name, "")
    ensures PinNode(volumes, NamedVolumesOf(mounts), chosen) == Done(chosen)
  {
    var names := NamedVolumesOf(mounts);
    forall n | n in names ensures LivesOn(volumes, n, "") {
      assert AsksForVolume(Mount(NamedMount, n));
    }
    ChoiceStands(volumes, names, chosen);
  }

  /** A mount asks for a volume that is missing, and no earlier one for a volume that lives on a node. */
  ghost predicate VolumeMissing(volumes: Fsm.Table<Volume>, mounts: seq<Mount>) {
    exists i: nat :: MountDecides(volumes, mounts, i) && Fsm.ByName(volumes, mounts[i].name) == None
  }

  lemma PinFailsIff(volumes: Fsm.Table<Volume>, mounts: seq<Mount>, chosen: string)
    ensures PinNode(volumes, NamedVolumesOf(mounts), chosen).Failed? <==> VolumeMissing(volumes, mounts)
  {
    hide LivesOn, NamedVolumesOf, Fsm.ByName, PinNode;
    if k :| 0 <= k < |mounts| && AsksForVolume(mounts[k]) && !LivesOn(volumes, mounts[k].name, "") {
      var i := 0;
      while !(AsksForVolume(mounts[i]) && !LivesOn(volumes, mounts[i].name, ""))
        invariant i <= k
        invariant forall j :: 0 <= j < i && AsksForVolume(mounts[j]) ==> LivesOn(volumes, mounts[j].name, "")
        decreases k - i
      {
        i := i + 1;
      }
      FirstMountDecides(volumes, mounts, chosen, i);
      assert MountDecides(volumes, mounts, i);
      forall j: nat | MountDecides(volumes, mounts, j) ensures j == i {
      }
    } else {
      NoMountDecides(volumes, mounts, chosen);
    }
  }

  // ---------------------------------------------------------------- what saving means

  /** The state changes as the command says exactly if it is committed, whatever the caller is told.  The
      caller is told of success exactly if that is confirmed and the command was answered Ok; of being
      unavailable exactly if it was not the leader; and of a name that exists or a record that is missing
      only if a confirmed command was answered so. */
  lemma SaveMeaning(fsm: Fsm.State, cmd: Fsm.Command, commit: Commit)
    ensures
      var (fsm', failure) := Save(fsm, cmd, commit);
      var (applied, r) := Fsm.Apply(fsm, cmd);
      && fsm' == (if commit in {Confirmed, Unconfirmed} then applied else fsm)
      && (failure == None <==> commit == Confirmed && r == Fsm.Ok)
      && (failure == Some(Unavailable) <==> commit == NotLeader)
      && (failure == Some(AlreadyExists) <==> commit == Confirmed && r in {Fsm.NameExists, Fsm.AlreadyInitialized})
      && (failure == Some(Missing) <==> commit == Confirmed && r == Fsm.NotFound)
      && (failure == Some(FailedPrecondition) <==> commit == Confirmed && r == Fsm.NotInitialized)
      && (failure == Some(Internal) <==>
            commit in {Lost, Unconfirmed} || (commit == Confirmed && r in {Fsm.RecordRequired, Fsm.BadCommand}))
  {
    hide Fsm.Apply;
  }

  // ---------------------------------------------------------------- what a valid specification is

  ghost predicate Space(c: char) {
    c in {' ', '\t', '\n', '\r', '\U{000B}', '\U{000C}'}
  }

  /** The part of a text between `i` and `j` is what remains without the white space around it. */
  ghost predicate Core(s: string, i: nat, j: nat) {
    && i <= j <= |s|
    && (forall k :: 0 <= k < i ==> Space(s[k])) && (forall k :: j <= k < |s| ==> Space(s[k]))
    && (i < j ==> !Space(s[i]) && !Space(s[j - 1]))
  }

  /** Every text has one. */
  lemma HasCore(s: string) returns (i: nat, j: nat)
    ensures Core(s, i, j)
  {
    i, j := 0, |s|;
    while i < |s| && Space(s[i])
      invariant i <= |s| && forall k :: 0 <= k < i ==> Space(s[k])
    {
      i := i + 1;
    }
    while i < j && Space(s[j - 1])
      invariant i <= j <= |s| && forall k :: j <= k < |s| ==> Space(s[k])
    {
      j := j - 1;
    }
  }

  lemma {:induction false} TrimLeftMeaning(s: string, i: nat)
    requires i <= |s| && (forall k :: 0 <= k < i ==> Space(s[k])) && (i < |s| ==> !Space(s[i]))
    ensures TrimLeft(s) == s[i..]
  {
    if i > 0 {
      TrimLeftMeaning(s[1..], i - 1);
    }
  }

  lemma {:induction false} TrimRightMeaning(s: string, j: nat)
    requires j <= |s| && (forall k :: j <= k < |s| ==> Space(s[k])) && (j > 0 ==> !Space(s[j - 1]))
    ensures TrimRight(s) == s[..j]
  {
    if j < |s| {
      TrimRightMeaning(s[..|s| - 1], j);
    } else {
      assert s[..j] == s;
    }
  }

  lemma TrimMeaning(s: string, i: nat, j: nat)
    requires Core(s, i, j)
    ensures TrimRight(TrimLeft(s)) == s[i..j]
  {
    if i < j {
      TrimLeftMeaning(s, i);
      TrimRightMeaning(s[i..], j - i);
    } else {
      TrimLeftMeaning(s, |s|);
    }
  }

  /** A specification is valid exactly if its name without the white space around it has one to 128
      characters and no named mount is without a name. */
  lemma ValidSpecMeaning(spec: Spec, i: nat, j: nat)
    requires Core(spec.name, i, j)
    ensures ValidSpec(spec) <==> 1 <= j - i <= 128 && Mount(NamedMount, "") !in spec.mounts
  {
    hide TrimLeft, TrimRight;
    TrimMeaning(spec.name, i, j);
    forall m | m in spec.mounts
      ensures m.kind.NamedMount? && m.name == "" <==> m == Mount(NamedMount, "")
    {
    }
  }
}
