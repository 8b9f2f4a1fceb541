/** What the commands of the log do to the records and to the name indexes, read off the states before
    and after them, and what a log leaves stored, read off the log alone. */
module FsmMeaning {
  import opened Records
  import opened Fsm
  import opened FsmIndex

  // ---------------------------------------------------------------- sandboxes

  /** Deleting a sandbox, after any log.  It is answered Ok exactly if the sandbox was stored.  Then
      neither it nor its name is left, and if the index was exact nothing leads to it; all other
      records and index entries, and all other tables, are as before. */
  lemma DeleteSandboxMeaning(log: seq<Command>, id: string)
    ensures
      var s := Exec(EMPTY, log).0;
      var (s', r) := Apply(s, DeleteSandbox(id));
      var (t, t') := (s.sandboxes, s'.sandboxes);
      && r == (if id == "" then RecordRequired else if id in t.records then Ok else NotFound)
      && id !in t'.records && t'.records - {id} == t.records - {id}
      && (forall n :: n in t'.names ==> n in t.names && t'.names[n] == t.names[n])
      && (forall n :: n in t.names && n !in t'.names ==> t.names[n] == id)
      && (id in t.records && t.records[id].name != "" ==> t.records[id].name !in t'.names)
      && (ExactNames(t) ==> forall n :: n in t'.names ==> t'.names[n] != id)
      && s' == s.(sandboxes := t')
  {
    hide Exec;
    NamesAreUnique(log);
  }

  /** Saving a sandbox, after any log.  The record is stored as it came, under the name it has or takes
      from its specification, and found under that name; every other sandbox is stored as before and
      still found under its name.  With an exact index the save is refused exactly if another stored
      sandbox has the name, and the name the sandbox had before is free.  A refusal changes nothing. */
  lemma SaveSandboxMeaning(log: seq<Command>, sb: Sandbox)
    ensures
      var s := Exec(EMPTY, log).0;
      var (s', r) := Apply(s, SaveSandbox(sb));
      var (t, t') := (s.sandboxes, s'.sandboxes);
      var name := if sb.name == "" then sb.spec.name else sb.name;
      && r in {Ok, RecordRequired, NameExists} && (r == RecordRequired <==> sb.id == "")
      && (r != Ok ==> s' == s)
      && (ExactNames(t) ==>
            (r == NameExists <==>
               sb.id != "" && name != "" && exists k :: k in t.records && k != sb.id && t.records[k].name == name))
      && (r == Ok ==>
            && t'.records == t.records[sb.id := sb.(name := name)]
            && (name != "" ==> name in t'.names && t'.names[name] == sb.id)
            && (forall k :: k in t.records && k != sb.id && t.records[k].name != "" ==>
                  t.records[k].name in t'.names && t'.names[t.records[k].name] == k)
            && (sb.id in t.records && name != "" && t.records[sb.id].name != name ==>
                  t.records[sb.id].name == "" || t.records[sb.id].name !in t'.names)
            && s' == s.(sandboxes := t'))
  {
    hide Exec;
    NamesAreUnique(log);
  }

  // ---------------------------------------------------------------- volumes

  /** Deleting a volume, after any log: the volume and whatever the index holds under its name are gone;
      all other records and entries are as before. */
  lemma DeleteVolumeMeaning(log: seq<Command>, id: string)
    ensures
      var s := Exec(EMPTY, log).0;
      var (s', r) := Apply(s, DeleteVolume(id));
      var (t, t') := (s.volumes, s'.volumes);
      && r == (if id == "" then RecordRequired else if id in t.records then Ok else NotFound)
      && id !in t'.records && t'.records - {id} == t.records - {id}
      && (forall n :: n in t'.names <==>
            n in t.names && !(id in t.records && n == t.records[id].name != ""))
      && (forall n :: n in t'.names ==> t'.names[n] == t.names[n])
      && s' == s.(volumes := t')
  {
    hide Exec;
    NamesAreUnique(log);
  }

  /** Saving a volume, after any log: the record is stored as it came, and if it is a named volume with a
      name it is found under it and no longer under the one it had; with an exact index it is refused
      exactly if another stored named volume has the name.  A refusal changes nothing. */
  lemma SaveVolumeMeaning(log: seq<Command>, v: Volume)
    ensures
      var s := Exec(EMPTY, log).0;
      var (s', r) := Apply(s, SaveVolume(v));
      var (t, t') := (s.volumes, s'.volumes);
      var named := v.kind == NamedVolume && v.name != "";
      && r in {Ok, RecordRequired, NameExists} && (r == RecordRequired <==> v.id == "")
      && (r != Ok ==> s' == s)
      && (ExactVolumeNames(t) ==>
            (r == NameExists <==>
               && v.id != "" && named
               && exists k :: k in t.records && k != v.id
                    && t.records[k].kind == NamedVolume && t.records[k].name == v.name))
      && (r == Ok ==>
            && t'.records == t.records[v.id := v]
            && (named ==> v.name in t'.names && t'.names[v.name] == v.id)
            && (named && v.id in t.records && t.records[v.id].name != v.name ==>
                  t.records[v.id].name == "" || t.records[v.id].name !in t'.names)
            && (!named ==> t'.names == t.names)
            && s' == s.(volumes := t'))
  {
    hide Exec;
    NamesAreUnique(log);
  }

  // ---------------------------------------------------------------- what a log leaves stored

  /** Reading the log alone: the node record saved last under the identifier, if it was not deleted
      since. */
  function LastNode(log: seq<Command>, id: string): Option<Node> {
    if |log| == 0 then None
    else
      var init := log[..|log| - 1];
      match log[|log| - 1]
      case SaveNode(n) => if n.id == id then Some(n) else LastNode(init, id)
      case DeleteNode(x) => if x == id then None else LastNode(init, id)
      case _ => LastNode(init, id)
  }

  function LastPeer(log: seq<Command>, id: string): Option<Peer> {
    if |log| == 0 then None
    else
      var init := log[..|log| - 1];
      match log[|log| - 1]
      case SavePeer(p) => if p.nodeID == id then Some(p) else LastPeer(init, id)
      case DeletePeer(x) => if x == id then None else LastPeer(init, id)
      case _ => LastPeer(init, id)
  }

  /** A key without a hash is not saved. */
  function LastKey(log: seq<Command>, id: string): Option<ApiKey> {
    if |log| == 0 then None
    else
      var init := log[..|log| - 1];
      match log[|log| - 1]
      case SaveAPIKey(k) => if k.id == id && k.keyHash != "" then Some(k) else LastKey(init, id)
      case DeleteAPIKey(x) => if x == id then None else LastKey(init, id)
      case _ => LastKey(init, id)
  }

  /** The cluster is created once; only then it can be updated. */
  function LastCluster(log: seq<Command>): Option<Cluster> {
    if |log| == 0 then None
    else
      var before := LastCluster(log[..|log| - 1]);
      match log[|log| - 1]
      case CreateCluster(c) => if before == None then Some(c) else before
      case UpdateCluster(c) => if before == None then None else Some(c)
      case _ => before
  }

  function Stored<T>(m: map<string, T>, id: string): Option<T> {
    if id in m then Some(m[id]) else None
  }

  lemma {:induction false} NodesAreRegisters(log: seq<Command>, id: string)
    requires id != ""
    ensures Stored(Exec(EMPTY, log).0.nodes, id) == LastNode(log, id)
  {
    hide ApplyToSandboxes, ApplyToVolumes;
    if |log| > 0 {
      NodesAreRegisters(log[..|log| - 1], id);
    }
  }

  lemma {:induction false} PeersAreRegisters(log: seq<Command>, id: string)
    requires id != ""
    ensures Stored(Exec(EMPTY, log).0.peers, id) == LastPeer(log, id)
  {
    hide ApplyToSandboxes, ApplyToVolumes;
    if |log| > 0 {
      PeersAreRegisters(log[..|log| - 1], id);
    }
  }

  lemma {:induction false} KeysAreRegisters(log: seq<Command>, id: string)
    requires id != ""
    ensures Stored(Exec(EMPTY, log).0.apiKeys, id) == LastKey(log, id)
  {
    hide ApplyToSandboxes, ApplyToVolumes;
    if |log| > 0 {
      KeysAreRegisters(log[..|log| - 1], id);
    }
  }

  lemma {:induction false} ClusterIsCreatedOnce(log: seq<Command>)
    ensures Exec(EMPTY, log).0.cluster == LastCluster(log)
  {
    hide ApplyToSandboxes, ApplyToVolumes;
    if |log| > 0 {
      ClusterIsCreatedOnce(log[..|log| - 1]);
    }
  }

  /** The keyed tables are registers: under every non-empty identifier they hold what was written there
      last, whatever happened in between to anything else. */
  lemma LastWriteWins(log: seq<Command>, id: string)
    requires id != ""
    ensures var s := Exec(EMPTY, log).0;
      && Stored(s.nodes, id) == LastNode(log, id)
      && Stored(s.peers, id) == LastPeer(log, id)
      && Stored(s.apiKeys, id) == LastKey(log, id)
      && s.cluster == LastCluster(log)
  {
    hide Exec, Stored, LastNode, LastPeer, LastKey, LastCluster;
    NodesAreRegisters(log, id);
    PeersAreRegisters(log, id);
    KeysAreRegisters(log, id);
    ClusterIsCreatedOnce(log);
  }

  /** Which commands on these tables are answered Ok after the log. */
  predicate Accepted(log: seq<Command>, cmd: Command) {
    match cmd
    case CreateCluster(_) => LastCluster(log) == None
    case UpdateCluster(_) => LastCluster(log) != None
    case SaveNode(n) => n.id != ""
    case DeleteNode(x) => x != "" && LastNode(log, x) != None
    case SavePeer(p) => p.nodeID != ""
    case DeletePeer(x) => x != ""
    case SaveAPIKey(k) => k.id != "" && k.keyHash != ""
    case DeleteAPIKey(x) => x != "" && LastKey(log, x) != None
    case _ => false
  }

  predicate OnIndexedTable(cmd: Command) {
    cmd.SaveSandbox? || cmd.DeleteSandbox? || cmd.SaveVolume? || cmd.DeleteVolume?
  }

  lemma ResponseMeaning(log: seq<Command>, cmd: Command)
    requires !OnIndexedTable(cmd)
    ensures Apply(Exec(EMPTY, log).0, cmd).1 == Ok <==> Accepted(log, cmd)
  {
    hide Exec, LastNode, LastKey, LastPeer, LastCluster, ApplyToSandboxes, ApplyToVolumes;
    LastWriteWins(log, "x");
    if cmd.DeleteNode? && cmd.id != "" {
      LastWriteWins(log, cmd.id);
    }
    if cmd.DeleteAPIKey? && cmd.id != "" {
      LastWriteWins(log, cmd.id);
    }
  }
}
