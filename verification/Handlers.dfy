/** What the leader's handlers mean for the caller, in the states a log can produce. */
module Handlers {
  import opened Records
  import opened Seqs
  import opened Control
  import Eviction
  import Fsm
  import FsmIndex
  import Quarantine
  import Scheduler

  // ---------------------------------------------------------------- creating

  ghost predicate NameTaken(fsm: Fsm.State, name: string) {
    exists id :: id in fsm.sandboxes.records && fsm.sandboxes.records[id].name == name
  }

  lemma {:induction false} ValidSpecIsNamed(s: string)
    ensures TrimRight(TrimLeft(s)) != "" ==> s != ""
  {
  }

  /** A sandbox as it is first stored. */
  ghost predicate IsNew(sb: Sandbox, req: CreateRequest, now: Time) {
    && sb.name == req.spec.name && sb.spec == req.spec && sb.labels == req.labels
    && sb.desired == (if req.start then DesiredRunning else DesiredStopped)
    && sb.generation == 1
    && sb.status == Status(PhaseCreated, "", "", None, None, Some(now))
    && sb.createdAt == now && sb.updatedAt == now
  }

  /** An invalid request is refused as such, and a valid one because of its name exactly when a stored
      sandbox has that name.  A request that succeeds files one record, at generation one, under the
      requested or generated identifier, and under its name; one that fails changes nothing.  The name
      index stays exact.  (`Control.ValidSpecMeaning` says which specifications are valid.) */
  lemma CreateMeaning(
      fsm: Fsm.State, held: set<string>, now: Time, req: CreateRequest, generated: Option<string>,
      nodeKeys: seq<string>, sandboxKeys: seq<string>)
    requires FsmIndex.ExactNames(fsm.sandboxes)
    requires IsKeyOrder(nodeKeys, fsm.nodes.Keys) && IsKeyOrder(sandboxKeys, fsm.sandboxes.records.Keys)
    ensures
      var (fsm', r) := Create(fsm, held, now, req, generated, nodeKeys, sandboxKeys, Confirmed);
      && (r.Failed? ==> fsm' == fsm)
      && (!req.wellFormed || !ValidSpec(req.spec) ==> r == Failed(InvalidArgument))
      && (req.wellFormed && ValidSpec(req.spec) ==>
            (r == Failed(AlreadyExists) <==> NameTaken(fsm, req.spec.name)))
      && (r.Done? ==>
            && r.value.id != "" && (if req.id != "" then r.value.id == req.id else generated == Some(r.value.id))
            && fsm'.sandboxes.records == fsm.sandboxes.records[r.value.id := r.value]
            && Fsm.ByName(fsm'.sandboxes, req.spec.name) == Some(r.value)
            && FsmIndex.ExactNames(fsm'.sandboxes)
            && IsNew(r.value, req, now))
  {
    hide Scheduler.SelectNode, ValidSpec, PinNode, NamedVolumesOf, NewSandbox, IsNew, Save, Listing;
    hide FsmIndex.ExactNames, NameTaken;
    if req.wellFormed && ValidSpec(req.spec) {
      NamedIfValid(req.spec);
      NameTakenMeaning(fsm, req.spec.name);
      OrderMembers(nodeKeys, fsm.nodes.Keys);
      OrderMembers(sandboxKeys, fsm.sandboxes.records.Keys);
      var chosen := Scheduler.SelectNode(
        Listing(nodeKeys, fsm.nodes), Listing(sandboxKeys, fsm.sandboxes.records), now, held);
      var placed := PinNode(fsm.volumes, req.spec.NamedVolumeNames(), chosen);
      PinFailsAsInvalid(fsm.volumes, req.spec.NamedVolumeNames(), chosen);
      var id := Identifier(req, generated);
      if placed.Done? && !NameTaken(fsm, req.spec.name) && id.Some? && id.value != "" {
        NewIsNew(req, id.value, placed.value, now);
        NewNameIsFiled(fsm, NewSandbox(req, id.value, placed.value, now));
      } else if placed.Done? && !NameTaken(fsm, req.spec.name) && id.Some? {
        NewIsNew(req, id.value, placed.value, now);
        NoIdentifier(fsm, NewSandbox(req, id.value, placed.value, now));
      }
    }
  }

  /** A committed request succeeds exactly if it is valid, no stored sandbox has the name, there is an
      identifier, and no volume is missing. */
  lemma CreateSucceedsIff(
      fsm: Fsm.State, held: set<string>, now: Time, req: CreateRequest, generated: Option<string>,
      nodeKeys: seq<string>, sandboxKeys: seq<string>)
    requires FsmIndex.ExactNames(fsm.sandboxes)
    requires IsKeyOrder(nodeKeys, fsm.nodes.Keys) && IsKeyOrder(sandboxKeys, fsm.sandboxes.records.Keys)
    ensures
      Create(fsm, held, now, req, generated, nodeKeys, sandboxKeys, Confirmed).1.Done? <==>
        && req.wellFormed && ValidSpec(req.spec) && !NameTaken(fsm, req.spec.name)
        && (req.id != "" || (generated.Some? && generated.value != ""))
        && !VolumeMissing(fsm.volumes, req.spec.mounts)
  {
    hide Scheduler.SelectNode, ValidSpec, PinNode, NamedVolumesOf, NewSandbox, Save, Listing, VolumeMissing;
    hide FsmIndex.ExactNames, NameTaken;
    if req.wellFormed && ValidSpec(req.spec) {
      NamedIfValid(req.spec);
      NameTakenMeaning(fsm, req.spec.name);
      var nodes, sandboxes := ListsOf(fsm, nodeKeys, sandboxKeys);
      var chosen := Scheduler.SelectNode(nodes, sandboxes, now, held);
      PinFailsIff(fsm.volumes, req.spec.mounts, chosen);
      var placed := PinNode(fsm.volumes, req.spec.NamedVolumeNames(), chosen);
      var id := Identifier(req, generated);
      if placed.Done? && !NameTaken(fsm, req.spec.name) && id.Some? {
        var sb := NewSandbox(req, id.value, placed.value, now);
        NewIsNew(req, id.value, placed.value, now);
        if id.value == "" {
          NoIdentifier(fsm, sb);
        } else {
          NewNameIsFiled(fsm, sb);
        }
      }
    }
  }

  lemma NewIsNew(req: CreateRequest, id: string, nodeID: string, now: Time)
    ensures var sb := NewSandbox(req, id, nodeID, now);
      IsNew(sb, req, now) && sb.id == id && sb.name == req.spec.name && sb.nodeID == nodeID
  {
  }

  lemma NoIdentifier(fsm: Fsm.State, sb: Sandbox)
    requires sb.id == ""
    ensures Save(fsm, Fsm.SaveSandbox(sb), Confirmed) == (fsm, Some(Internal))
  {
  }

  lemma NamedIfValid(spec: Spec)
    requires ValidSpec(spec)
    ensures spec.name != ""
  {
    ValidSpecIsNamed(spec.name);
  }

  lemma {:induction false} PinFailsAsInvalid(volumes: Fsm.Table<Volume>, names: seq<string>, chosen: string)
    ensures PinNode(volumes, names, chosen).Failed? ==> PinNode(volumes, names, chosen) == Failed(InvalidArgument)
  {
    if |names| > 0 {
      PinFailsAsInvalid(volumes, names[1..], chosen);
    }
  }

  lemma NameTakenMeaning(fsm: Fsm.State, name: string)
    requires FsmIndex.ExactNames(fsm.sandboxes) && name != ""
    ensures Fsm.ByName(fsm.sandboxes, name).Some? <==> NameTaken(fsm, name)
    ensures name in fsm.sandboxes.names <==> NameTaken(fsm, name)
  {
  }

  lemma NewNameIsFiled(fsm: Fsm.State, sb: Sandbox)
    requires FsmIndex.ExactNames(fsm.sandboxes)
    requires sb.id != "" && sb.name != "" && sb.name !in fsm.sandboxes.names
    ensures
      var (fsm', failure) := Save(fsm, Fsm.SaveSandbox(sb), Confirmed);
      && failure.None?
      && fsm'.sandboxes.records == fsm.sandboxes.records[sb.id := sb]
      && Fsm.ByName(fsm'.sandboxes, sb.name) == Some(sb)
      && FsmIndex.ExactNames(fsm'.sandboxes)
  {
    FsmIndex.NamesStayExactIff(fsm, Fsm.SaveSandbox(sb));
  }

  // ---------------------------------------------------------------- where a new sandbox goes

  /** The stored sandboxes on a node that are not to be removed. */
  ghost function Hosted(records: map<string, Sandbox>, nodeID: string): set<string> {
    set id | id in records && records[id].nodeID == nodeID && records[id].desired != DesiredRemoved
  }

  ghost function HostedAmong(keys: seq<string>, records: map<string, Sandbox>, nodeID: string): set<string>
    requires forall k :: k in keys ==> k in records
  {
    set k | k in keys && records[k].nodeID == nodeID && records[k].desired != DesiredRemoved
  }

  lemma HostedOneMore(keys: seq<string>, records: map<string, Sandbox>, nodeID: string)
    requires |keys| > 0 && NoDup(keys) && forall k :: k in keys ==> k in records
    ensures
      var last := |keys| - 1;
      && keys[last] !in HostedAmong(keys[..last], records, nodeID)
      && HostedAmong(keys, records, nodeID) == HostedAmong(keys[..last], records, nodeID)
           + if records[keys[last]].nodeID == nodeID && records[keys[last]].desired != DesiredRemoved
             then {keys[last]} else {}
  {
    assert keys == keys[..|keys| - 1] + [keys[|keys| - 1]];
  }

  lemma {:induction false} ListingCounts(keys: seq<string>, records: map<string, Sandbox>, nodeID: string)
    requires NoDup(keys) && forall k :: k in keys ==> k in records
    ensures |Scheduler.On(Listing(keys, records), nodeID)| == |HostedAmong(keys, records, nodeID)|
  {
    hide Scheduler.On, HostedAmong;
    if |keys| == 0 {
      Scheduler.NobodyOn(nodeID);
      assert Listing(keys, records) == [];
      NobodyHosted(records, nodeID);
    } else {
      var last := |keys| - 1;
      ListingCounts(keys[..last], records, nodeID);
      assert Listing(keys, records)[..last] == Listing(keys[..last], records);
      Scheduler.OnOneMore(Listing(keys, records), nodeID);
      HostedOneMore(keys, records, nodeID);
    }
  }

  lemma NobodyHosted(records: map<string, Sandbox>, nodeID: string)
    ensures HostedAmong([], records, nodeID) == {}
  {
  }

  lemma HostedCounts(keys: seq<string>, records: map<string, Sandbox>, nodeID: string)
    requires IsKeyOrder(keys, records.Keys)
    ensures forall k :: k in keys ==> k in records
    ensures |Scheduler.On(Listing(keys, records), nodeID)| == |Hosted(records, nodeID)|
  {
    OrderMembers(keys, records.Keys);
    ListingCounts(keys, records, nodeID);
    assert Hosted(records, nodeID) == HostedAmong(keys, records, nodeID);
  }

  /** The node is open and, if asked for, recently heard, and no other such node has fewer sandboxes. */
  ghost predicate Roomiest(fsm: Fsm.State, held: set<string>, now: Time, heard: bool, nodeID: string) {
    && nodeID in fsm.nodes && Eligible(fsm.nodes[nodeID], held, now, heard)
    && forall id :: id in fsm.nodes && Eligible(fsm.nodes[id], held, now, heard) ==>
         |Hosted(fsm.sandboxes.records, nodeID)| <= |Hosted(fsm.sandboxes.records, id)|
  }

  ghost predicate Eligible(n: Node, held: set<string>, now: Time, heard: bool) {
    Scheduler.Open(n, held) && (heard ==> Scheduler.Fresh(n, now))
  }

  /** The roomiest of the open nodes that were heard in the last thirty seconds, or of all open ones if
      none was; or no node if none is open. */
  ghost predicate WellPlaced(fsm: Fsm.State, held: set<string>, now: Time, nodeID: string) {
    var heard := exists id :: id in fsm.nodes && Eligible(fsm.nodes[id], held, now, true);
    if exists id :: id in fsm.nodes && Eligible(fsm.nodes[id], held, now, false)
    then Roomiest(fsm, held, now, heard, nodeID)
    else nodeID == ""
  }

  /** Where a created sandbox goes that asks for no named volume, for every order the lists are read in:
      to a node with the fewest sandboxes among the open ones that were heard in the last thirty
      seconds, or among all open ones if none was; and to no node if none is open.  (With named volumes
      `Control.FirstMountDecides` says which node it is, if a volume decides.) */
  lemma PlacementMeaning(
      fsm: Fsm.State, held: set<string>, now: Time, req: CreateRequest, generated: Option<string>,
      nodeKeys: seq<string>, sandboxKeys: seq<string>, commit: Commit)
    requires FsmIndex.Keyed(fsm)
    requires IsKeyOrder(nodeKeys, fsm.nodes.Keys) && IsKeyOrder(sandboxKeys, fsm.sandboxes.records.Keys)
    requires forall m :: m in req.spec.mounts ==> !AsksForVolume(m)
    ensures var r := Create(fsm, held, now, req, generated, nodeKeys, sandboxKeys, commit).1;
      r.Done? ==> WellPlaced(fsm, held, now, r.value.nodeID)
  {
    hide Scheduler.SelectNode, ValidSpec, Save, Fsm.ByName, WellPlaced;
    var nodes, sandboxes := ListsOf(fsm, nodeKeys, sandboxKeys);
    NoVolumes(req.spec.mounts);
    ChosenIsRoomiest(fsm, held, now, nodeKeys, sandboxKeys);
  }

  /** What a create request adds to the store, whatever becomes of its save and whatever the caller is
      told: at most the one sandbox it describes. */
  lemma CreateAdds(
      fsm: Fsm.State, held: set<string>, now: Time, req: CreateRequest, generated: Option<string>,
      nodeKeys: seq<string>, sandboxKeys: seq<string>, commit: Commit, id: string)
    requires FsmIndex.Keyed(fsm)
    requires IsKeyOrder(nodeKeys, fsm.nodes.Keys) && IsKeyOrder(sandboxKeys, fsm.sandboxes.records.Keys)
    requires
      var fsm' := Create(fsm, held, now, req, generated, nodeKeys, sandboxKeys, commit).0;
      id !in fsm.sandboxes.records && id in fsm'.sandboxes.records
    ensures
      var fsm' := Create(fsm, held, now, req, generated, nodeKeys, sandboxKeys, commit).0;
      var sb := fsm'.sandboxes.records[id];
      && sb.id == id && (if req.id != "" then id == req.id else generated == Some(id))
      && fsm'.sandboxes.records - {id} == fsm.sandboxes.records
      && IsNew(sb, req, now)
      && ((forall m :: m in req.spec.mounts ==> !AsksForVolume(m)) ==> WellPlaced(fsm, held, now, sb.nodeID))
  {
    hide Scheduler.SelectNode, ValidSpec, Save, Fsm.ByName, WellPlaced, PinNode, NewSandbox, IsNew, NamedVolumesOf;
    hide AsksForVolume;
    var nodes, sandboxes := ListsOf(fsm, nodeKeys, sandboxKeys);
    var chosen := Scheduler.SelectNode(nodes, sandboxes, now, held);
    var placed := PinNode(fsm.volumes, req.spec.NamedVolumeNames(), chosen);
    var sb := NewSandbox(req, Identifier(req, generated).value, placed.value, now);
    NewIsNew(req, Identifier(req, generated).value, placed.value, now);
    NewIsFiled(sb, req, now);
    Eviction.SaveFrame(fsm, sb, commit);
    if forall m :: m in req.spec.mounts ==> !AsksForVolume(m) {
      NoVolumes(req.spec.mounts);
      NoNamesNoPin(fsm.volumes, chosen);
      ChosenIsRoomiest(fsm, held, now, nodeKeys, sandboxKeys);
    }
  }

  lemma NewIsFiled(sb: Sandbox, req: CreateRequest, now: Time)
    requires IsNew(sb, req, now)
    ensures Eviction.Filed(sb) == sb
  {
  }

  lemma NoNamesNoPin(volumes: Fsm.Table<Volume>, chosen: string)
    ensures PinNode(volumes, [], chosen) == Done(chosen)
  {
  }

  lemma NoVolumes(mounts: seq<Mount>)
    requires forall m :: m in mounts ==> !AsksForVolume(m)
    ensures NamedVolumesOf(mounts) == []
  {
    var names := NamedVolumesOf(mounts);
    if |names| > 0 {
      assert names[0] in names;
      assert AsksForVolume(Mount(NamedMount, names[0]));
    }
  }

  lemma ListsOf(fsm: Fsm.State, nodeKeys: seq<string>, sandboxKeys: seq<string>)
    returns (nodes: seq<Node>, sandboxes: seq<Sandbox>)
    requires IsKeyOrder(nodeKeys, fsm.nodes.Keys) && IsKeyOrder(sandboxKeys, fsm.sandboxes.records.Keys)
    ensures forall k :: k in nodeKeys ==> k in fsm.nodes
    ensures forall k :: k in sandboxKeys ==> k in fsm.sandboxes.records
    ensures nodes == Listing(nodeKeys, fsm.nodes) && sandboxes == Listing(sandboxKeys, fsm.sandboxes.records)
  {
    OrderMembers(nodeKeys, fsm.nodes.Keys);
    OrderMembers(sandboxKeys, fsm.sandboxes.records.Keys);
    nodes, sandboxes := Listing(nodeKeys, fsm.nodes), Listing(sandboxKeys, fsm.sandboxes.records);
  }

  lemma ChosenIsRoomiest(
      fsm: Fsm.State, held: set<string>, now: Time, nodeKeys: seq<string>, sandboxKeys: seq<string>)
    requires FsmIndex.Keyed(fsm)
    requires IsKeyOrder(nodeKeys, fsm.nodes.Keys) && IsKeyOrder(sandboxKeys, fsm.sandboxes.records.Keys)
    requires forall k :: k in nodeKeys ==> k in fsm.nodes
    requires forall k :: k in sandboxKeys ==> k in fsm.sandboxes.records
    ensures
      var target := Scheduler.SelectNode(
        Listing(nodeKeys, fsm.nodes), Listing(sandboxKeys, fsm.sandboxes.records), now, held);
      WellPlaced(fsm, held, now, target)
  {
    hide Scheduler.SelectNode, Scheduler.Open, Scheduler.Fresh, Scheduler.On, Hosted, IsKeyOrder;
    var nodes, sandboxes := Listing(nodeKeys, fsm.nodes), Listing(sandboxKeys, fsm.sandboxes.records);
    Eviction.ListingIsUnique(nodeKeys, fsm.nodes, (n: Node) => n.id);
    Scheduler.ChoiceMeaning(nodes, sandboxes, now, held);
    forall id ensures |Scheduler.On(sandboxes, id)| == |Hosted(fsm.sandboxes.records, id)| {
      HostedCounts(sandboxKeys, fsm.sandboxes.records, id);
    }
    forall id | id in fsm.nodes ensures fsm.nodes[id] in nodes && fsm.nodes[id].id == id {
    }
  }

  // ---------------------------------------------------------------- starting and stopping

  /** Starting or stopping a sandbox that is not stored is refused.  Otherwise, once committed, the stored
      record has the wish and the update time, and nothing else changes, about it or anything else; the
      caller is told of success exactly if the commit is confirmed. */
  lemma SetDesiredMeaning(fsm: Fsm.State, now: Time, id: string, desired: DesiredState, commit: Commit)
    requires FsmIndex.Keyed(fsm) && FsmIndex.NamesClaimed(fsm.sandboxes) && Eviction.AllFiled(fsm)
    ensures
      var (fsm', r) := SetDesired(fsm, now, id, desired, commit);
      if id !in fsm.sandboxes.records then fsm' == fsm && r == Failed(Missing)
      else
        var sb := fsm.sandboxes.records[id].(desired := desired, updatedAt := now);
        && (r.Done? <==> commit == Confirmed) && (r.Done? ==> r.value == sb)
        && (!Happens(commit) ==> fsm' == fsm)
        && (Happens(commit) ==>
              fsm' == fsm.(sandboxes := Fsm.Table(fsm.sandboxes.records[id := sb], fsm.sandboxes.names)))
  {
    hide FsmIndex.NamesClaimed, Save;
    if id in fsm.sandboxes.records {
      SameNameSave(fsm, fsm.sandboxes.records[id].(desired := desired, updatedAt := now), commit);
    }
  }

  // ---------------------------------------------------------------- removing

  /** Removing a sandbox that is not stored is refused.  Otherwise the record, its name and, with an
      exact index, every way to it are gone as soon as the deletion is committed, and nothing else
      changes; the caller is told of success exactly if the commit is confirmed. */
  lemma RemoveMeaning(fsm: Fsm.State, id: string, commit: Commit)
    requires FsmIndex.Keyed(fsm)
    ensures
      var (fsm', failure) := Remove(fsm, id, commit);
      if id !in fsm.sandboxes.records then fsm' == fsm && failure == Some(Missing)
      else
        && (failure == None <==> commit == Confirmed)
        && (!Happens(commit) ==> fsm' == fsm)
        && (Happens(commit) ==>
              && fsm'.sandboxes.records == fsm.sandboxes.records - {id}
              && id !in fsm'.sandboxes.records
              && (FsmIndex.ExactNames(fsm.sandboxes) ==>
                    forall n :: n in fsm'.sandboxes.names ==> fsm'.sandboxes.names[n] != id)
              && fsm' == fsm.(sandboxes := fsm'.sandboxes))
  {
  }

  // ---------------------------------------------------------------- status reports

  /** The record holds the reported status, stamped with the present, and is otherwise as before. */
  ghost predicate Carries(before: Sandbox, after: Sandbox, status: Status, now: Time) {
    && after == before.(status := after.status, updatedAt := now)
    && after.status.phase == status.phase && after.status.message == status.message
    && after.status.localName == status.localName
    && after.status.startedAt == status.startedAt && after.status.stoppedAt == status.stoppedAt
    && after.status.updatedAt == Some(now)
  }

  /** Neither the node's own certificate nor a manager's. */
  ghost predicate Outsider(peer: Certificate, nodeID: string) {
    !peer.manager && (peer.name != nodeID || nodeID == "")
  }

  lemma OutsiderMeaning(peer: Certificate, nodeID: string)
    ensures MaySpeakFor(peer, nodeID) <==> !Outsider(peer, nodeID)
  {
  }

  /** A status report, in every state a log can produce.  It is refused for a sandbox that is not stored,
      from an outsider to the node the sandbox is on, and with a generation other than the stored one,
      if that is positive; in this order, and without a change.  Any other report is stored as it was
      sent once it is committed, and touches no other record, name or table. */
  lemma StatusMeaning(
      fsm: Fsm.State, now: Time, peer: Certificate, id: string, generation: int, status: Status, commit: Commit)
    requires FsmIndex.Keyed(fsm) && FsmIndex.NamesClaimed(fsm.sandboxes) && Eviction.AllFiled(fsm)
    ensures
      var (fsm', failure) := UpdateSandboxStatus(fsm, now, peer, id, generation, status, commit);
      if id !in fsm.sandboxes.records then fsm' == fsm && failure == Some(Missing)
      else
        var sb := fsm.sandboxes.records[id];
        if sb.nodeID != "" && Outsider(peer, sb.nodeID) then fsm' == fsm && failure == Some(PermissionDenied)
        else if sb.generation > 0 && generation != sb.generation then fsm' == fsm && failure == Some(FailedPrecondition)
        else
          && (failure == None <==> commit == Confirmed)
          && (!Happens(commit) ==> fsm' == fsm)
          && (Happens(commit) ==>
                && id in fsm'.sandboxes.records && Carries(sb, fsm'.sandboxes.records[id], status, now)
                && fsm'.sandboxes.records - {id} == fsm.sandboxes.records - {id}
                && fsm'.sandboxes.names == fsm.sandboxes.names
                && fsm' == fsm.(sandboxes := fsm'.sandboxes))
  {
    hide MaySpeakFor, Outsider;
    if id in fsm.sandboxes.records {
      var sb := fsm.sandboxes.records[id];
      OutsiderMeaning(peer, sb.nodeID);
      SameNameSave(fsm, Reported(sb, status, now), commit);
    }
  }

  /** Saving a record under its stored name replaces that record and nothing else. */
  lemma SameNameSave(fsm: Fsm.State, sb: Sandbox, commit: Commit)
    requires FsmIndex.NamesClaimed(fsm.sandboxes) && Eviction.Renames(fsm, sb)
    ensures
      var (fsm', failure) := Save(fsm, Fsm.SaveSandbox(sb), commit);
      && (failure == None <==> commit == Confirmed)
      && fsm' == if !Happens(commit) then fsm
                 else fsm.(sandboxes := Fsm.Table(fsm.sandboxes.records[sb.id := sb], fsm.sandboxes.names))
  {
    if sb.name != "" {
      assert fsm.sandboxes.names[sb.name := sb.id] == fsm.sandboxes.names;
    }
  }

  // ---------------------------------------------------------------- heartbeats

  /** The node record with the stamp and what the heartbeat reports; everything else is kept. */
  ghost predicate HasBeaten(before: Node, after: Node, beat: Beat, now: Time) {
    && after.heartbeatAt == Some(now) && after.grpcAddr == beat.grpcAddr && after.sandboxCount == beat.count
    && after.id == before.id && after.role == before.role && after.membership == before.membership
    && after.availability == before.availability && after.labels == before.labels
  }

  /** The list holds exactly the stored sandboxes of the node, each once. */
  ghost predicate ListsNode(fsm: Fsm.State, list: seq<Sandbox>, nodeID: string) {
    && NoDup(list)
    && forall sb :: sb in list <==>
         sb.id in fsm.sandboxes.records && fsm.sandboxes.records[sb.id] == sb && sb.nodeID == nodeID
  }

  lemma {:induction false} ListedOnce(records: map<string, Sandbox>, keys: seq<string>, nodeID: string)
    requires NoDup(keys) && forall k :: k in keys ==> k in records && records[k].id == k
    ensures NoDup(Fsm.SandboxesByNode(records, keys, nodeID))
  {
    if |keys| > 0 {
      var init, last := keys[..|keys| - 1], keys[|keys| - 1];
      ListedOnce(records, init, nodeID);
      var rest := Fsm.SandboxesByNode(records, init, nodeID);
      assert last !in init;
      assert forall sb :: sb in rest ==> sb.id in init;
    }
  }

  lemma ListingNode(fsm: Fsm.State, keys: seq<string>, nodeID: string)
    requires FsmIndex.Keyed(fsm) && IsKeyOrder(keys, fsm.sandboxes.records.Keys)
    ensures forall k :: k in keys ==> k in fsm.sandboxes.records
    ensures ListsNode(fsm, Fsm.SandboxesByNode(fsm.sandboxes.records, keys, nodeID), nodeID)
  {
    OrderMembers(keys, fsm.sandboxes.records.Keys);
    ListedOnce(fsm.sandboxes.records, keys, nodeID);
  }

  /** What both heartbeats do with a node record. */
  lemma BeatingMeaning(
      fsm: Fsm.State, quarantine: Quarantine.Counts, n: Node, now: Time, beat: Beat,
      keys: seq<string>, commit: Commit)
    requires FsmIndex.Keyed(fsm) && IsKeyOrder(keys, fsm.sandboxes.records.Keys) && n.id == beat.nodeID != ""
    requires forall k :: k in keys ==> k in fsm.sandboxes.records
    ensures
      var o := Beating(fsm, quarantine, n, now, beat, keys, commit);
      && (!Happens(commit) ==> o.fsm == fsm)
      && (Happens(commit) ==>
            && beat.nodeID in o.fsm.nodes && HasBeaten(n, o.fsm.nodes[beat.nodeID], beat, now)
            && o.fsm == fsm.(nodes := o.fsm.nodes)
            && o.fsm.nodes - {beat.nodeID} == fsm.nodes - {beat.nodeID})
      && (commit == Confirmed ==>
            && o.result.Done? && o.result.value.Assigned?
            && o.result.value.role == n.role && ListsNode(fsm, o.result.value.list, beat.nodeID))
      && (commit != Confirmed ==> o.result == Failed(Told(commit)) && o.quarantine == quarantine)
  {
    hide Fsm.SandboxesByNode, ListsNode;
    ListingNode(fsm, keys, beat.nodeID);
  }

  /** A node's heartbeat.  Without an identifier, and from an outsider, it is refused; a node without a
      record is told that it was removed; none of this changes anything.  Otherwise, once it is
      committed, the record holds the present as its stamp and is otherwise kept, so that the node is
      neither evacuated nor passed over for its heartbeat; no other record changes; and the answer
      carries the node's role and exactly its stored sandboxes. */
  lemma HeartbeatMeaning(
      fsm: Fsm.State, quarantine: Quarantine.Counts, now: Time, peer: Certificate, beat: Beat,
      keys: seq<string>, commit: Commit)
    requires FsmIndex.Keyed(fsm) && IsKeyOrder(keys, fsm.sandboxes.records.Keys)
    ensures
      var o := Heartbeat(fsm, quarantine, now, peer, beat, keys, commit);
      if beat.nodeID == "" then o == Outcome(fsm, quarantine, Failed(InvalidArgument))
      else if Outsider(peer, beat.nodeID) then o == Outcome(fsm, quarantine, Failed(PermissionDenied))
      else if beat.nodeID !in fsm.nodes then o == Outcome(fsm, quarantine, Done(Removed))
      else
        && (!Happens(commit) ==> o.fsm == fsm)
        && (Happens(commit) ==>
              && beat.nodeID in o.fsm.nodes
              && HasBeaten(fsm.nodes[beat.nodeID], o.fsm.nodes[beat.nodeID], beat, now)
              && Scheduler.Fresh(o.fsm.nodes[beat.nodeID], now) && !Scheduler.Silent(o.fsm.nodes[beat.nodeID], now)
              && o.fsm == fsm.(nodes := o.fsm.nodes)
              && o.fsm.nodes - {beat.nodeID} == fsm.nodes - {beat.nodeID})
        && (commit == Confirmed ==>
              && o.result.Done? && o.result.value.Assigned?
              && o.result.value.role == fsm.nodes[beat.nodeID].role
              && ListsNode(fsm, o.result.value.list, beat.nodeID))
        && (commit != Confirmed ==> o.result == Failed(Told(commit)) && o.quarantine == quarantine)
  {
    hide Beating, ListsNode, MaySpeakFor, Outsider;
    OutsiderMeaning(peer, beat.nodeID);
    OrderMembers(keys, fsm.sandboxes.records.Keys);
    if beat.nodeID in fsm.nodes && beat.nodeID != "" {
      BeatingMeaning(fsm, quarantine, fsm.nodes[beat.nodeID], now, beat, keys, commit);
    }
  }

  /** The heartbeat of the leader's own node: the same with its record, and without one it files an
      accepted node of its role. */
  lemma LocalHeartbeatMeaning(
      fsm: Fsm.State, quarantine: Quarantine.Counts, now: Time, role: Role, beat: Beat,
      keys: seq<string>, commit: Commit)
    requires FsmIndex.Keyed(fsm) && IsKeyOrder(keys, fsm.sandboxes.records.Keys) && beat.nodeID != ""
    ensures
      var o := LocalHeartbeat(fsm, quarantine, now, role, beat, keys, commit);
      && (!Happens(commit) ==> o.fsm == fsm)
      && (Happens(commit) ==>
            && beat.nodeID in o.fsm.nodes
            && (beat.nodeID in fsm.nodes ==>
                  HasBeaten(fsm.nodes[beat.nodeID], o.fsm.nodes[beat.nodeID], beat, now))
            && (beat.nodeID !in fsm.nodes ==>
                  o.fsm.nodes[beat.nodeID]
                    == Node(beat.nodeID, role, Accepted, Unset, map[], beat.grpcAddr, Some(now), beat.count))
            && o.fsm == fsm.(nodes := o.fsm.nodes)
            && o.fsm.nodes - {beat.nodeID} == fsm.nodes - {beat.nodeID})
      && (commit == Confirmed ==>
            && o.result.Done? && o.result.value.Assigned?
            && o.result.value.role == (if beat.nodeID in fsm.nodes then fsm.nodes[beat.nodeID].role else role)
            && ListsNode(fsm, o.result.value.list, beat.nodeID))
      && (commit != Confirmed ==> o.result == Failed(Told(commit)) && o.quarantine == quarantine)
  {
    hide Beating, ListsNode;
    OrderMembers(keys, fsm.sandboxes.records.Keys);
    var n := if beat.nodeID in fsm.nodes then fsm.nodes[beat.nodeID] else OwnRecord(beat.nodeID, role);
    BeatingMeaning(fsm, quarantine, n, now, beat, keys, commit);
  }
}
