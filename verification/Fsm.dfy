/** The replicated state machine, as a function on values: twelve operations over seven maps. */
module Fsm {
  import opened Records
  import opened Seqs

  /** Records by identifier, with the secondary index from name to identifier. */
  datatype Table<T> = Table(records: map<string, T>, names: map<string, string>)

  datatype State = State(
    cluster: Option<Cluster>,
    nodes: map<string, Node>,
    peers: map<string, Peer>,
    sandboxes: Table<Sandbox>,
    volumes: Table<Volume>,
    apiKeys: map<string, ApiKey>)

  const EMPTY := State(None, map[], map[], Table(map[], map[]), Table(map[], map[]), map[])

  /** A committed log entry.  A missing record in a payload is a record with an empty identifier. */
  datatype Command =
    | CreateCluster(cluster: Cluster)
    | UpdateCluster(cluster: Cluster)
    | SaveNode(node: Node)
    | DeleteNode(id: string)
    | SavePeer(peer: Peer)
    | DeletePeer(id: string)
    | SaveSandbox(sandbox: Sandbox)
    | DeleteSandbox(id: string)
    | SaveVolume(volume: Volume)
    | DeleteVolume(id: string)
    | SaveAPIKey(key: ApiKey)
    | DeleteAPIKey(id: string)
    | Undecodable
    | UnknownOp(op: string)

  datatype Response =
    | Ok
    | RecordRequired
    | AlreadyInitialized
    | NotInitialized
    | NotFound
    | NameExists
    | BadCommand

  /** The name a sandbox is filed under: its own, else the one of its specification. */
  function EffectiveName(sb: Sandbox): string {
    if sb.name == "" then sb.spec.name else sb.name
  }

  function PutSandbox(t: Table<Sandbox>, sb: Sandbox): (Table<Sandbox>, Response) {
    if sb.id == "" then (t, RecordRequired)
    else
      var name := EffectiveName(sb);
      if name == "" then (t.(records := t.records[sb.id := sb]), Ok)
      else if name in t.names && t.names[name] != sb.id then (t, NameExists)
      else
        var names :=
          if sb.id in t.records && t.records[sb.id].name != "" && t.records[sb.id].name != name
          then t.names - {t.records[sb.id].name}
          else t.names;
        (Table(t.records[sb.id := sb.(name := name)], names[name := sb.id]), Ok)
  }

  function DropSandbox(t: Table<Sandbox>, id: string): (Table<Sandbox>, Response) {
    if id == "" then (t, RecordRequired)
    else if id !in t.records then (t, NotFound)
    else
      var name := t.records[id].name;
      (Table(t.records - {id}, if name != "" then t.names - {name} else t.names), Ok)
  }

  /** Whether a volume is filed under its name. */
  predicate Indexed(v: Volume) {
    v.kind.NamedVolume? && v.name != ""
  }

  function PutVolume(t: Table<Volume>, v: Volume): (Table<Volume>, Response) {
    if v.id == "" then (t, RecordRequired)
    else if !Indexed(v) then (t.(records := t.records[v.id := v]), Ok)
    else if v.name in t.names && t.names[v.name] != v.id then (t, NameExists)
    else
      var names :=
        if v.id in t.records && t.records[v.id].name != "" && t.records[v.id].name != v.name
        then t.names - {t.records[v.id].name}
        else t.names;
      (Table(t.records[v.id := v], names[v.name := v.id]), Ok)
  }

  /** Deleting a volume drops the index entry of its name, whatever its kind. */
  function DropVolume(t: Table<Volume>, id: string): (Table<Volume>, Response) {
    if id == "" then (t, RecordRequired)
    else if id !in t.records then (t, NotFound)
    else
      var name := t.records[id].name;
      (Table(t.records - {id}, if name != "" then t.names - {name} else t.names), Ok)
  }

  /** A command against the sandbox table; other commands leave it alone. */
  function ApplyToSandboxes(t: Table<Sandbox>, cmd: Command): (Table<Sandbox>, Response) {
    match cmd
    case SaveSandbox(sb) => PutSandbox(t, sb)
    case DeleteSandbox(id) => DropSandbox(t, id)
    case _ => (t, Ok)
  }

  /** A command against the volume table; other commands leave it alone. */
  function ApplyToVolumes(t: Table<Volume>, cmd: Command): (Table<Volume>, Response) {
    match cmd
    case SaveVolume(v) => PutVolume(t, v)
    case DeleteVolume(id) => DropVolume(t, id)
    case _ => (t, Ok)
  }

  function Apply(s: State, cmd: Command): (State, Response) {
    match cmd
    case CreateCluster(c) => if s.cluster.Some? then (s, AlreadyInitialized) else (s.(cluster := Some(c)), Ok)
    case UpdateCluster(c) => if s.cluster.None? then (s, NotInitialized) else (s.(cluster := Some(c)), Ok)
    case SaveNode(n) => if n.id == "" then (s, RecordRequired) else (s.(nodes := s.nodes[n.id := n]), Ok)
    case DeleteNode(id) =>
      if id == "" then (s, RecordRequired)
      else if id !in s.nodes then (s, NotFound)
      else (s.(nodes := s.nodes - {id}), Ok)
    case SavePeer(p) =>
      if p.nodeID == "" then (s, RecordRequired) else (s.(peers := s.peers[p.nodeID := p]), Ok)
    case DeletePeer(id) => if id == "" then (s, RecordRequired) else (s.(peers := s.peers - {id}), Ok)
    case SaveSandbox(_) => var (t, r) := ApplyToSandboxes(s.sandboxes, cmd); (s.(sandboxes := t), r)
    case DeleteSandbox(_) => var (t, r) := ApplyToSandboxes(s.sandboxes, cmd); (s.(sandboxes := t), r)
    case SaveVolume(_) => var (t, r) := ApplyToVolumes(s.volumes, cmd); (s.(volumes := t), r)
    case DeleteVolume(_) => var (t, r) := ApplyToVolumes(s.volumes, cmd); (s.(volumes := t), r)
    case SaveAPIKey(k) =>
      if k.id == "" || k.keyHash == "" then (s, RecordRequired) else (s.(apiKeys := s.apiKeys[k.id := k]), Ok)
    case DeleteAPIKey(id) =>
      if id == "" then (s, RecordRequired)
      else if id !in s.apiKeys then (s, NotFound)
      else (s.(apiKeys := s.apiKeys - {id}), Ok)
    case Undecodable => (s, BadCommand)
    case UnknownOp(_) => (s, BadCommand)
  }

  /** The state and the responses after a log. */
  function Exec(s: State, log: seq<Command>): (State, seq<Response>) {
    if |log| == 0 then (s, [])
    else
      var (mid, rs) := Exec(s, log[..|log| - 1]);
      var (end, r) := Apply(mid, log[|log| - 1]);
      (end, rs + [r])
  }

  /** One more command. */
  lemma ExecStep(s: State, log: seq<Command>, cmd: Command)
    ensures Exec(s, log + [cmd]) == (Apply(Exec(s, log).0, cmd).0, Exec(s, log).1 + [Apply(Exec(s, log).0, cmd).1])
  {
    assert (log + [cmd])[..|log|] == log;
  }

  lemma {:induction false} ExecAppend(s: State, a: seq<Command>, b: seq<Command>)
    ensures Exec(s, a + b) == (Exec(Exec(s, a).0, b).0, Exec(s, a).1 + Exec(Exec(s, a).0, b).1)
  {
    hide Apply;
    if |b| == 0 {
      assert a + b == a;
      assert Exec(s, a).1 + [] == Exec(s, a).1;
    } else {
      var b' := b[..|b| - 1];
      assert (a + b)[..|a + b| - 1] == a + b';
      assert (a + b)[|a + b| - 1] == b[|b| - 1];
      ExecAppend(s, a, b');
      var mid := Exec(s, a).0;
      var r := Apply(Exec(mid, b').0, b[|b| - 1]).1;
      assert (Exec(s, a).1 + Exec(mid, b').1) + [r] == Exec(s, a).1 + (Exec(mid, b').1 + [r]);
    }
  }

  /** One response for each command. */
  lemma {:induction false} ExecLength(s: State, log: seq<Command>)
    ensures |Exec(s, log).1| == |log|
  {
    hide Apply;
    if |log| > 0 {
      ExecLength(s, log[..|log| - 1]);
    }
  }

  // ---------------------------------------------------------------- lookups

  /** Looks a record up by name, through the index. */
  function ByName<T>(t: Table<T>, name: string): Option<T> {
    if name !in t.names then None
    else if t.names[name] !in t.records then None
    else Some(t.records[t.names[name]])
  }

  /** The sandboxes assigned to a node, in a given visiting order of the store. */
  function SandboxesByNode(records: map<string, Sandbox>, keys: seq<string>, nodeID: string): (list: seq<Sandbox>)
    requires forall k :: k in keys ==> k in records
    ensures forall sb :: sb in list <==> sb.nodeID == nodeID && exists k :: k in keys && records[k] == sb
  {
    if |keys| == 0 then []
    else
      var last := keys[|keys| - 1];
      var rest := SandboxesByNode(records, keys[..|keys| - 1], nodeID);
      assert keys == keys[..|keys| - 1] + [last];
      if records[last].nodeID == nodeID then rest + [records[last]] else rest
  }

  // ---------------------------------------------------------------- snapshots

  /** What a snapshot persists: everything but the two name indexes. */
  datatype Snapshot = Snapshot(
    cluster: Option<Cluster>,
    nodes: map<string, Node>,
    peers: map<string, Peer>,
    sandboxes: map<string, Sandbox>,
    volumes: map<string, Volume>,
    apiKeys: map<string, ApiKey>)

  function TakeSnapshot(s: State): Snapshot {
    Snapshot(s.cluster, s.nodes, s.peers, s.sandboxes.records, s.volumes.records, s.apiKeys)
  }

  /** The index that the loop over the sandboxes leaves when it visits them in the given order. */
  function Rebuild(keys: seq<string>, sandboxes: map<string, Sandbox>): map<string, string>
    requires forall k :: k in keys ==> k in sandboxes
  {
    if |keys| == 0 then map[]
    else
      var last := keys[|keys| - 1];
      var names := Rebuild(keys[..|keys| - 1], sandboxes);
      if sandboxes[last].name != "" then names[sandboxes[last].name := last] else names
  }

  function RebuildVolumes(keys: seq<string>, volumes: map<string, Volume>): map<string, string>
    requires forall k :: k in keys ==> k in volumes
  {
    if |keys| == 0 then map[]
    else
      var last := keys[|keys| - 1];
      var names := RebuildVolumes(keys[..|keys| - 1], volumes);
      if Indexed(volumes[last]) then names[volumes[last].name := last] else names
  }

  /** Orders in which restoring may visit the sandboxes and the volumes of a snapshot. */
  ghost predicate RestoreOrders(snap: Snapshot, keys: seq<string>, volumeKeys: seq<string>) {
    IsKeyOrder(keys, snap.sandboxes.Keys) && IsKeyOrder(volumeKeys, snap.volumes.Keys)
  }

  /** The state that restoring the snapshot produces when it visits the records in these orders. */
  ghost function Restored(snap: Snapshot, keys: seq<string>, volumeKeys: seq<string>): (s: State)
    requires RestoreOrders(snap, keys, volumeKeys)
    ensures TakeSnapshot(s) == snap
  {
    OrderMembers(keys, snap.sandboxes.Keys);
    OrderMembers(volumeKeys, snap.volumes.Keys);
    State(snap.cluster, snap.nodes, snap.peers, Table(snap.sandboxes, Rebuild(keys, snap.sandboxes)),
          Table(snap.volumes, RebuildVolumes(volumeKeys, snap.volumes)), snap.apiKeys)
  }
}
