/** The replicated state machine as the program holds it: maps from identifiers to pointers.  Every
    operation replaces map entries with fresh records and never writes to a stored one; that, and the
    copies the getters make, isolates snapshots and callers from the store. */
module FsmHeap {
  import opened Records
  import opened Seqs
  import opened Heap
  import Fsm

  // ---------------------------------------------------------------- what the maps denote

  /** The pointers in the map denote the given records, key by key, and everything they reach is
      among `objs`. */
  ghost predicate HoldNodes(m: map<string, NodePtr>, v: map<string, Node>, objs: set<object>)
    reads objs
  {
    && m.Keys == v.Keys
    && forall id :: id in m ==> m[id] in objs && m[id].v.labels in objs && NodeOf(m[id]) == v[id]
  }

  ghost predicate HoldSandboxes(m: map<string, SandboxPtr>, v: map<string, Sandbox>, objs: set<object>)
    reads objs
  {
    && m.Keys == v.Keys
    && forall id :: id in m ==>
         m[id] in objs && m[id].v.labels in objs && m[id].v.mounts in objs && SandboxOf(m[id]) == v[id]
  }

  ghost predicate HoldVolumes(m: map<string, VolumePtr>, v: map<string, Volume>, objs: set<object>)
    reads objs
  {
    && m.Keys == v.Keys
    && forall id :: id in m ==> m[id] in objs && m[id].v.labels in objs && VolumeOf(m[id]) == v[id]
  }

  ghost predicate HoldKeys(m: map<string, KeyPtr>, v: map<string, ApiKey>, objs: set<object>)
    reads objs
  {
    && m.Keys == v.Keys
    && forall id :: id in m ==> m[id] in objs && m[id].v == v[id]
  }

  ghost predicate HoldCluster(p: Ref?<ClusterRec>, v: Option<Cluster>, objs: set<object>)
    reads objs
  {
    if p == null then v.None?
    else p in objs && p.v.caKey in objs && p.v.caCert in objs && v == Some(ClusterOf(p))
  }

  // ---------------------------------------------------------------- replacing one entry

  method PutNode(m: map<string, NodePtr>, n: Node, ghost v: map<string, Node>, ghost objs: set<object>)
    returns (m': map<string, NodePtr>, ghost objs': set<object>)
    requires HoldNodes(m, v, objs)
    ensures HoldNodes(m', v[n.id := n], objs') && fresh(objs' - objs)
  {
    var labels := new Ref(n.labels);
    var cp := new Ref(NodeRec(n, labels));
    m' := m[n.id := cp];
    objs' := objs + {cp as object, labels as object};
    assert forall id :: id in m ==> NodeOf(m[id]) == v[id];
  }

  lemma DropNode(m: map<string, NodePtr>, v: map<string, Node>, objs: set<object>, id: string)
    requires HoldNodes(m, v, objs)
    ensures HoldNodes(m - {id}, v - {id}, objs)
  {
  }

  lemma NodeKeys(m: map<string, NodePtr>, v: map<string, Node>, objs: set<object>)
    requires HoldNodes(m, v, objs)
    ensures m.Keys == v.Keys
  {
  }

  lemma KeyKeys(m: map<string, KeyPtr>, v: map<string, ApiKey>, objs: set<object>)
    requires HoldKeys(m, v, objs)
    ensures m.Keys == v.Keys
  {
  }

  lemma IsSet(p: Ref?<ClusterRec>, v: Option<Cluster>, objs: set<object>)
    requires HoldCluster(p, v, objs)
    ensures p == null <==> v.None?
  {
  }

  lemma DropKey(m: map<string, KeyPtr>, v: map<string, ApiKey>, objs: set<object>, id: string)
    requires HoldKeys(m, v, objs)
    ensures HoldKeys(m - {id}, v - {id}, objs)
  {
  }

  lemma LookupSandbox(m: map<string, SandboxPtr>, v: map<string, Sandbox>, objs: set<object>, id: string)
    requires HoldSandboxes(m, v, objs)
    ensures HoldSandboxes(m - {id}, v - {id}, objs)
    ensures m.Keys == v.Keys
    ensures id in m ==> SandboxOf(m[id]) == v[id]
  {
  }

  lemma NoSandboxes()
    ensures HoldSandboxes(map[], map[], {})
  {
  }

  lemma LookupVolume(m: map<string, VolumePtr>, v: map<string, Volume>, objs: set<object>, id: string)
    requires HoldVolumes(m, v, objs)
    ensures HoldVolumes(m - {id}, v - {id}, objs)
    ensures m.Keys == v.Keys
    ensures id in m ==> VolumeOf(m[id]) == v[id]
  {
  }

  method PutSandbox(
      m: map<string, SandboxPtr>, id: string, p: SandboxPtr, ghost v: map<string, Sandbox>, ghost objs: set<object>)
    returns (m': map<string, SandboxPtr>, ghost objs': set<object>)
    requires HoldSandboxes(m, v, objs)
    ensures HoldSandboxes(m', v[id := SandboxOf(p)], objs') && objs <= objs' && fresh(objs' - objs)
  {
    var cp := CloneSandbox(p);
    m' := m[id := cp];
    objs' := objs + {cp as object, cp.v.labels as object, cp.v.mounts as object};
    assert forall id :: id in m ==> SandboxOf(m[id]) == v[id];
  }

  method PutVolume(m: map<string, VolumePtr>, vol: Volume, ghost v: map<string, Volume>, ghost objs: set<object>)
    returns (m': map<string, VolumePtr>, ghost objs': set<object>)
    requires HoldVolumes(m, v, objs)
    ensures HoldVolumes(m', v[vol.id := vol], objs') && fresh(objs' - objs)
  {
    var labels := new Ref(vol.labels);
    var cp := new Ref(VolumeRec(vol, labels));
    m' := m[vol.id := cp];
    objs' := objs + {cp as object, labels as object};
    assert forall id :: id in m ==> VolumeOf(m[id]) == v[id];
  }

  /** The decoded payload of a save: a record of its own. */
  method Decode(sb: Sandbox) returns (payload: SandboxPtr)
    ensures fresh(payload) && SandboxOf(payload) == sb
  {
    var labels := new Ref(sb.labels);
    var mounts := new Ref(sb.spec.mounts);
    payload := new Ref(SandboxRec(sb, labels, mounts));
  }

  /** Files a sandbox: refuses a name held by another one, drops the old name of a renamed one, and
      replaces the stored record by a clone. */
  method FileSandbox(
      t: Fsm.Table<SandboxPtr>, sb: Sandbox, ghost v: Fsm.Table<Sandbox>, ghost objs: set<object>)
    returns (t': Fsm.Table<SandboxPtr>, r: Fsm.Response, ghost objs': set<object>)
    requires HoldSandboxes(t.records, v.records, objs) && t.names == v.names
    ensures var (v', r') := Fsm.PutSandbox(v, sb);
      HoldSandboxes(t'.records, v'.records, objs') && t'.names == v'.names && r == r' && fresh(objs' - objs)
  {
    hide HoldSandboxes;
    if sb.id == "" {
      return t, Fsm.RecordRequired, objs;
    }
    LookupSandbox(t.records, v.records, objs, sb.id);
    var names := t.names;
    var name := sb.name;
    if name == "" {
      name := sb.spec.name;
    }
    var filed := sb;
    if name != "" {
      if name in names && names[name] != sb.id {
        return t, Fsm.NameExists, objs;
      }
      if sb.id in t.records && t.records[sb.id].v.base.name != "" && t.records[sb.id].v.base.name != name {
        names := names - {t.records[sb.id].v.base.name};
      }
      names := names[name := sb.id];
      filed := sb.(name := name);
    }
    var payload := Decode(filed);
    var records;
    records, objs' := PutSandbox(t.records, payload.v.base.id, payload, v.records, objs);
    t' := Fsm.Table(records, names);
    r := Fsm.Ok;
  }

  method UnfileSandbox(
      t: Fsm.Table<SandboxPtr>, id: string, ghost v: Fsm.Table<Sandbox>, ghost objs: set<object>)
    returns (t': Fsm.Table<SandboxPtr>, r: Fsm.Response)
    requires HoldSandboxes(t.records, v.records, objs) && t.names == v.names
    ensures var (v', r') := Fsm.DropSandbox(v, id);
      HoldSandboxes(t'.records, v'.records, objs) && t'.names == v'.names && r == r'
  {
    hide HoldSandboxes;
    LookupSandbox(t.records, v.records, objs, id);
    if id == "" {
      return t, Fsm.RecordRequired;
    }
    if id !in t.records {
      return t, Fsm.NotFound;
    }
    var name := t.records[id].v.base.name;
    return Fsm.Table(t.records - {id}, if name != "" then t.names - {name} else t.names), Fsm.Ok;
  }

  method FileVolume(
      t: Fsm.Table<VolumePtr>, vol: Volume, ghost v: Fsm.Table<Volume>, ghost objs: set<object>)
    returns (t': Fsm.Table<VolumePtr>, r: Fsm.Response, ghost objs': set<object>)
    requires HoldVolumes(t.records, v.records, objs) && t.names == v.names
    ensures var (v', r') := Fsm.PutVolume(v, vol);
      HoldVolumes(t'.records, v'.records, objs') && t'.names == v'.names && r == r' && fresh(objs' - objs)
  {
    hide HoldVolumes;
    if vol.id == "" {
      return t, Fsm.RecordRequired, objs;
    }
    LookupVolume(t.records, v.records, objs, vol.id);
    var names := t.names;
    if vol.kind.NamedVolume? && vol.name != "" {
      if vol.name in names && names[vol.name] != vol.id {
        return t, Fsm.NameExists, objs;
      }
      if vol.id in t.records && t.records[vol.id].v.base.name != "" && t.records[vol.id].v.base.name != vol.name {
        names := names - {t.records[vol.id].v.base.name};
      }
      names := names[vol.name := vol.id];
    }
    var records;
    records, objs' := PutVolume(t.records, vol, v.records, objs);
    t' := Fsm.Table(records, names);
    r := Fsm.Ok;
  }

  method UnfileVolume(
      t: Fsm.Table<VolumePtr>, id: string, ghost v: Fsm.Table<Volume>, ghost objs: set<object>)
    returns (t': Fsm.Table<VolumePtr>, r: Fsm.Response)
    requires HoldVolumes(t.records, v.records, objs) && t.names == v.names
    ensures var (v', r') := Fsm.DropVolume(v, id);
      HoldVolumes(t'.records, v'.records, objs) && t'.names == v'.names && r == r'
  {
    hide HoldVolumes;
    LookupVolume(t.records, v.records, objs, id);
    if id == "" {
      return t, Fsm.RecordRequired;
    }
    if id !in t.records {
      return t, Fsm.NotFound;
    }
    var name := t.records[id].v.base.name;
    return Fsm.Table(t.records - {id}, if name != "" then t.names - {name} else t.names), Fsm.Ok;
  }

  method PutKey(m: map<string, KeyPtr>, k: ApiKey, ghost v: map<string, ApiKey>, ghost objs: set<object>)
    returns (m': map<string, KeyPtr>, ghost objs': set<object>)
    requires HoldKeys(m, v, objs)
    ensures HoldKeys(m', v[k.id := k], objs') && fresh(objs' - objs)
  {
    var cp := new Ref(k);
    m' := m[k.id := cp];
    objs' := objs + {cp as object};
    assert forall id :: id in m ==> m[id].v == v[id];
  }

  method NewCluster(c: Cluster) returns (p: ClusterPtr, ghost objs: set<object>)
    ensures HoldCluster(p, Some(c), objs) && fresh(objs)
  {
    var caKey := new Ref(c.caKey);
    var caCert := new Ref(c.caCert);
    p := new Ref(ClusterRec(c, caKey, caCert));
    objs := {p as object, caKey as object, caCert as object};
  }

  // ---------------------------------------------------------------- copying whole maps

  lemma AddNode(
      m: map<string, NodePtr>, v: map<string, Node>, objs: set<object>, id: string, p: NodePtr, n: Node)
    requires HoldNodes(m, v, objs) && NodeOf(p) == n
    ensures HoldNodes(m[id := p], v[id := n], objs + {p as object, p.v.labels as object})
  {
  }

  lemma AddVolume(
      m: map<string, VolumePtr>, v: map<string, Volume>, objs: set<object>, id: string, p: VolumePtr, vol: Volume)
    requires HoldVolumes(m, v, objs) && VolumeOf(p) == vol
    ensures HoldVolumes(m[id := p], v[id := vol], objs + {p as object, p.v.labels as object})
  {
  }

  lemma AddKey(m: map<string, KeyPtr>, v: map<string, ApiKey>, objs: set<object>, id: string, p: KeyPtr, k: ApiKey)
    requires HoldKeys(m, v, objs) && p.v == k
    ensures HoldKeys(m[id := p], v[id := k], objs + {p as object})
  {
  }

  /** Copies the node structures; the copies share their labels with the originals. */
  method CopyNodes(m: map<string, NodePtr>, ghost v: map<string, Node>, ghost objs: set<object>)
    returns (m': map<string, NodePtr>, ghost objs': set<object>)
    requires HoldNodes(m, v, objs)
    ensures HoldNodes(m', v, objs') && fresh(objs' - objs)
    ensures forall id :: id in m' ==> fresh(m'[id])
  {
    m', objs' := map[], {};
    var rest := m.Keys;
    ghost var done: map<string, Node> := map[];
    while rest != {}
      invariant rest <= m.Keys && done.Keys == m.Keys - rest
      invariant forall id :: id in done ==> done[id] == v[id]
      invariant HoldNodes(m', done, objs') && fresh(objs' - objs)
      invariant forall id :: id in m' ==> fresh(m'[id])
      decreases rest
    {
      var id :| id in rest;
      assert NodeOf(m[id]) == v[id];
      hide HoldNodes;
      var cp := new Ref(m[id].v);
      AddNode(m', done, objs', id, cp, v[id]);
      m', done, rest := m'[id := cp], done[id := v[id]], rest - {id};
      objs' := objs' + {cp as object, cp.v.labels as object};
    }
    assert done == v;
  }

  method CloneSandboxes(m: map<string, SandboxPtr>, ghost v: map<string, Sandbox>, ghost objs: set<object>)
    returns (m': map<string, SandboxPtr>, ghost objs': set<object>)
    requires HoldSandboxes(m, v, objs)
    ensures HoldSandboxes(m', v, objs') && fresh(objs')
  {
    hide HoldSandboxes;
    m', objs' := map[], {};
    var rest := m.Keys;
    ghost var done: map<string, Sandbox> := map[];
    NoSandboxes();
    LookupSandbox(m, v, objs, "");
    while rest != {}
      invariant rest <= m.Keys && done.Keys == m.Keys - rest
      invariant forall id :: id in done ==> done[id] == v[id]
      invariant HoldSandboxes(m, v, objs) && HoldSandboxes(m', done, objs') && fresh(objs')
      decreases rest
    {
      var id :| id in rest;
      LookupSandbox(m, v, objs, id);
      m', objs' := PutSandbox(m', id, m[id], done, objs');
      done, rest := done[id := v[id]], rest - {id};
    }
    assert done == v;
  }

  method CloneVolumes(m: map<string, VolumePtr>, ghost v: map<string, Volume>, ghost objs: set<object>)
    returns (m': map<string, VolumePtr>, ghost objs': set<object>)
    requires HoldVolumes(m, v, objs)
    ensures HoldVolumes(m', v, objs') && fresh(objs')
  {
    m', objs' := map[], {};
    var rest := m.Keys;
    ghost var done: map<string, Volume> := map[];
    while rest != {}
      invariant rest <= m.Keys && done.Keys == m.Keys - rest
      invariant forall id :: id in done ==> done[id] == v[id]
      invariant HoldVolumes(m', done, objs') && fresh(objs')
      decreases rest
    {
      var id :| id in rest;
      assert VolumeOf(m[id]) == v[id];
      hide HoldVolumes;
      var cp := CloneVolume(m[id]);
      AddVolume(m', done, objs', id, cp, v[id]);
      m', done, rest := m'[id := cp], done[id := v[id]], rest - {id};
      objs' := objs' + {cp as object, cp.v.labels as object};
    }
    assert done == v;
  }

  method CloneKeys(m: map<string, KeyPtr>, ghost v: map<string, ApiKey>, ghost objs: set<object>)
    returns (m': map<string, KeyPtr>, ghost objs': set<object>)
    requires HoldKeys(m, v, objs)
    ensures HoldKeys(m', v, objs') && fresh(objs')
  {
    m', objs' := map[], {};
    var rest := m.Keys;
    ghost var done: map<string, ApiKey> := map[];
    while rest != {}
      invariant rest <= m.Keys && done.Keys == m.Keys - rest
      invariant forall id :: id in done ==> done[id] == v[id]
      invariant HoldKeys(m', done, objs') && fresh(objs')
      decreases rest
    {
      var id :| id in rest;
      assert m[id].v == v[id];
      hide HoldKeys;
      var cp := CloneKey(m[id]);
      AddKey(m', done, objs', id, cp, v[id]);
      m', done, rest := m'[id := cp], done[id := v[id]], rest - {id};
      objs' := objs' + {cp as object};
    }
    assert done == v;
  }

  method CloneClusterIfSet(p: Ref?<ClusterRec>, ghost v: Option<Cluster>, ghost objs: set<object>)
    returns (p': Ref?<ClusterRec>, ghost objs': set<object>)
    requires HoldCluster(p, v, objs)
    ensures HoldCluster(p', v, objs') && fresh(objs')
  {
    if p == null {
      return null, {};
    }
    var cp := CloneCluster(p);
    return cp, {cp as object, cp.v.caKey as object, cp.v.caCert as object};
  }

  /** The loop that rebuilds the sandbox index, visiting the sandboxes in an arbitrary order; the ghost
      result is the order. */
  method IndexSandboxes(m: map<string, SandboxPtr>, ghost v: map<string, Sandbox>, ghost objs: set<object>)
    returns (names: map<string, string>, ghost keys: seq<string>)
    requires HoldSandboxes(m, v, objs)
    ensures IsKeyOrder(keys, v.Keys)
    ensures forall k :: k in keys ==> k in v
    ensures names == Fsm.Rebuild(keys, v)
  {
    hide IsKeyOrder, HoldSandboxes;
    names, keys := map[], [];
    NoKeys();
    LookupSandbox(m, v, objs, "");
    var rest := m.Keys;
    assert m.Keys - rest == {};
    while rest != {}
      invariant rest <= m.Keys && IsKeyOrder(keys, m.Keys - rest)
      invariant (forall k :: k in keys ==> k in v) && names == Fsm.Rebuild(keys, v)
      decreases rest
    {
      var id :| id in rest;
      LookupSandbox(m, v, objs, id);
      KeyOrderAppend(keys, m.Keys - rest, id);
      assert m.Keys - (rest - {id}) == m.Keys - rest + {id};
      assert (keys + [id])[..|keys|] == keys;
      var name := m[id].v.base.name;
      if name != "" {
        names := names[name := id];
      }
      keys, rest := keys + [id], rest - {id};
    }
    assert m.Keys - rest == m.Keys;
  }

  method IndexVolumes(m: map<string, VolumePtr>, ghost v: map<string, Volume>, ghost objs: set<object>)
    returns (names: map<string, string>, ghost keys: seq<string>)
    requires HoldVolumes(m, v, objs)
    ensures IsKeyOrder(keys, v.Keys)
    ensures forall k :: k in keys ==> k in v
    ensures names == Fsm.RebuildVolumes(keys, v)
  {
    hide IsKeyOrder, HoldVolumes;
    names, keys := map[], [];
    NoKeys();
    LookupVolume(m, v, objs, "");
    var rest := m.Keys;
    assert m.Keys - rest == {};
    while rest != {}
      invariant rest <= m.Keys && IsKeyOrder(keys, m.Keys - rest)
      invariant (forall k :: k in keys ==> k in v) && names == Fsm.RebuildVolumes(keys, v)
      decreases rest
    {
      var id :| id in rest;
      LookupVolume(m, v, objs, id);
      KeyOrderAppend(keys, m.Keys - rest, id);
      assert m.Keys - (rest - {id}) == m.Keys - rest + {id};
      assert (keys + [id])[..|keys|] == keys;
      var base := m[id].v.base;
      if base.kind.NamedVolume? && base.name != "" {
        names := names[base.name := id];
      }
      keys, rest := keys + [id], rest - {id};
    }
    assert m.Keys - rest == m.Keys;
  }

  // ---------------------------------------------------------------- listing whole maps

  /** Clones of all nodes, in an arbitrary order; the ghost result is the order. */
  method NodeList(m: map<string, NodePtr>, ghost v: map<string, Node>, ghost objs: set<object>)
    returns (list: seq<NodePtr>, ghost keys: seq<string>)
    requires HoldNodes(m, v, objs)
    ensures IsKeyOrder(keys, v.Keys) && AreNodes(list, Listing(keys, v))
    ensures forall p :: p in list ==> fresh(p) && fresh(p.v.labels)
  {
    list, keys := [], [];
    ghost var own: set<object> := {};
    hide IsKeyOrder;
    NoKeys();
    var rest := m.Keys;
    assert m.Keys - rest == {};
    while rest != {}
      invariant rest <= m.Keys && IsKeyOrder(keys, m.Keys - rest) && |list| == |keys|
      invariant fresh(own)
      invariant forall i :: 0 <= i < |list| ==> list[i] in own && list[i].v.labels in own
      invariant forall i :: 0 <= i < |list| ==> keys[i] in v && NodeOf(list[i]) == v[keys[i]]
      decreases rest
    {
      var id :| id in rest;
      assert NodeOf(m[id]) == v[id];
      hide HoldNodes;
      var cp := CloneNode(m[id]);
      KeyOrderAppend(keys, m.Keys - rest, id);
      assert m.Keys - (rest - {id}) == m.Keys - rest + {id};
      list, keys, rest := list + [cp], keys + [id], rest - {id};
      own := own + {cp as object, cp.v.labels as object};
    }
    assert m.Keys - rest == m.Keys;
  }

  /** Appends a clone of one sandbox to a list of clones. */
  method AppendClone(list: seq<SandboxPtr>, p: SandboxPtr, ghost vs: seq<Sandbox>, ghost own: set<object>)
    returns (list': seq<SandboxPtr>, ghost own': set<object>)
    requires AreSandboxes(list, vs) && Within(list, own)
    ensures AreSandboxes(list', vs + [SandboxOf(p)]) && Within(list', own') && own <= own' && fresh(own' - own)
  {
    var cp := CloneSandbox(p);
    WithinAppend(list, own, cp);
    list', own' := list + [cp], own + {cp as object, cp.v.labels as object, cp.v.mounts as object};
    assert forall i :: 0 <= i < |list| ==> SandboxOf(list[i]) == vs[i];
  }

  lemma NoClones()
    ensures AreSandboxes([], []) && Within([], {})
  {
  }

  lemma AreWithin(list: seq<SandboxPtr>, own: set<object>)
    requires Within(list, own)
    ensures forall p :: p in list ==> p in own && p.v.labels in own && p.v.mounts in own
  {
  }

  method SandboxList(m: map<string, SandboxPtr>, ghost v: map<string, Sandbox>, ghost objs: set<object>)
    returns (list: seq<SandboxPtr>, ghost keys: seq<string>)
    requires HoldSandboxes(m, v, objs)
    ensures IsKeyOrder(keys, v.Keys) && AreSandboxes(list, Listing(keys, v))
    ensures forall p :: p in list ==> fresh(p) && fresh(p.v.labels) && fresh(p.v.mounts)
  {
    hide IsKeyOrder, HoldSandboxes, AreSandboxes, Within;
    list, keys := [], [];
    ghost var vs: seq<Sandbox>, own: set<object> := [], {};
    NoKeys();
    NoClones();
    LookupSandbox(m, v, objs, "");
    var rest := m.Keys;
    assert m.Keys - rest == {};
    while rest != {}
      invariant HoldSandboxes(m, v, objs)
      invariant rest <= m.Keys && IsKeyOrder(keys, m.Keys - rest)
      invariant (forall k :: k in keys ==> k in v) && vs == Listing(keys, v)
      invariant fresh(own) && Within(list, own) && AreSandboxes(list, vs)
      decreases rest
    {
      var id :| id in rest;
      LookupSandbox(m, v, objs, id);
      KeyOrderAppend(keys, m.Keys - rest, id);
      assert m.Keys - (rest - {id}) == m.Keys - rest + {id};
      list, own := AppendClone(list, m[id], vs, own);
      keys, vs, rest := keys + [id], vs + [v[id]], rest - {id};
    }
    assert m.Keys - rest == m.Keys;
    AreWithin(list, own);
  }

  /** Clones of the sandboxes of one node. */
  method SandboxListByNode(
      m: map<string, SandboxPtr>, nodeID: string, ghost v: map<string, Sandbox>, ghost objs: set<object>)
    returns (list: seq<SandboxPtr>, ghost keys: seq<string>)
    requires HoldSandboxes(m, v, objs)
    ensures IsKeyOrder(keys, v.Keys)
    ensures forall k :: k in keys ==> k in v
    ensures AreSandboxes(list, Fsm.SandboxesByNode(v, keys, nodeID))
    ensures forall p :: p in list ==> fresh(p) && fresh(p.v.labels) && fresh(p.v.mounts)
  {
    hide IsKeyOrder, HoldSandboxes, AreSandboxes, Within, Fsm.SandboxesByNode;
    list, keys := [], [];
    ghost var vs: seq<Sandbox>, own: set<object> := [], {};
    NoKeys();
    NoClones();
    NoneByNode(v, nodeID);
    LookupSandbox(m, v, objs, "");
    var rest := m.Keys;
    assert m.Keys - rest == {};
    while rest != {}
      invariant HoldSandboxes(m, v, objs)
      invariant rest <= m.Keys && IsKeyOrder(keys, m.Keys - rest)
      invariant (forall k :: k in keys ==> k in v) && vs == Fsm.SandboxesByNode(v, keys, nodeID)
      invariant fresh(own) && Within(list, own) && AreSandboxes(list, vs)
      decreases rest
    {
      var id :| id in rest;
      LookupSandbox(m, v, objs, id);
      KeyOrderAppend(keys, m.Keys - rest, id);
      assert m.Keys - (rest - {id}) == m.Keys - rest + {id};
      NextByNode(v, keys, id, nodeID);
      keys, rest := keys + [id], rest - {id};
      if m[id].v.base.nodeID == nodeID {
        list, own := AppendClone(list, m[id], vs, own);
        vs := vs + [v[id]];
      }
    }
    assert m.Keys - rest == m.Keys;
    AreWithin(list, own);
  }

  lemma NoneByNode(v: map<string, Sandbox>, nodeID: string)
    ensures Fsm.SandboxesByNode(v, [], nodeID) == []
  {
  }

  lemma NextByNode(v: map<string, Sandbox>, keys: seq<string>, id: string, nodeID: string)
    requires id in v && forall k :: k in keys ==> k in v
    ensures Fsm.SandboxesByNode(v, keys + [id], nodeID)
         == Fsm.SandboxesByNode(v, keys, nodeID) + if v[id].nodeID == nodeID then [v[id]] else []
  {
    assert (keys + [id])[..|keys|] == keys;
  }

  // ---------------------------------------------------------------- all seven maps

  /** The maps of a store. */
  datatype Maps = Maps(
    cluster: Ref?<ClusterRec>, nodes: map<string, NodePtr>, peers: map<string, Peer>,
    sandboxes: Fsm.Table<SandboxPtr>, volumes: Fsm.Table<VolumePtr>, apiKeys: map<string, KeyPtr>)

  /** The objects the maps of a store reach. */
  datatype Objects = Objects(
    cluster: set<object>, nodes: set<object>, sandboxes: set<object>, volumes: set<object>, keys: set<object>) {

    ghost function All(): set<object> {
      cluster + nodes + sandboxes + volumes + keys
    }
  }

  /** The maps denote the given state. */
  ghost predicate Holds(m: Maps, s: Fsm.State, objs: Objects)
    reads objs.cluster, objs.nodes, objs.sandboxes, objs.volumes, objs.keys
  {
    && HoldCluster(m.cluster, s.cluster, objs.cluster)
    && HoldNodes(m.nodes, s.nodes, objs.nodes)
    && m.peers == s.peers
    && HoldSandboxes(m.sandboxes.records, s.sandboxes.records, objs.sandboxes)
    && m.sandboxes.names == s.sandboxes.names
    && HoldVolumes(m.volumes.records, s.volumes.records, objs.volumes)
    && m.volumes.names == s.volumes.names
    && HoldKeys(m.apiKeys, s.apiKeys, objs.keys)
  }

  lemma PartsHold(m: Maps, s: Fsm.State, objs: Objects)
    requires Holds(m, s, objs)
    ensures HoldCluster(m.cluster, s.cluster, objs.cluster)
    ensures HoldNodes(m.nodes, s.nodes, objs.nodes)
    ensures HoldSandboxes(m.sandboxes.records, s.sandboxes.records, objs.sandboxes)
    ensures HoldVolumes(m.volumes.records, s.volumes.records, objs.volumes)
    ensures HoldKeys(m.apiKeys, s.apiKeys, objs.keys)
    ensures m.peers == s.peers && m.sandboxes.names == s.sandboxes.names && m.volumes.names == s.volumes.names
  {
    hide HoldNodes, HoldSandboxes, HoldVolumes, HoldKeys, HoldCluster;
  }

  lemma WithCluster(m: Maps, s: Fsm.State, objs: Objects, p: Ref?<ClusterRec>, c: Option<Cluster>, os: set<object>)
    requires Holds(m, s, objs) && HoldCluster(p, c, os)
    ensures Holds(m.(cluster := p), s.(cluster := c), objs.(cluster := os))
  {
    hide HoldNodes, HoldSandboxes, HoldVolumes, HoldKeys, HoldCluster;
  }

  lemma WithNodes(
      m: Maps, s: Fsm.State, objs: Objects, nodes: map<string, NodePtr>, v: map<string, Node>, os: set<object>)
    requires Holds(m, s, objs) && HoldNodes(nodes, v, os)
    ensures Holds(m.(nodes := nodes), s.(nodes := v), objs.(nodes := os))
  {
    hide HoldNodes, HoldSandboxes, HoldVolumes, HoldKeys, HoldCluster;
  }

  lemma WithPeers(m: Maps, s: Fsm.State, objs: Objects, peers: map<string, Peer>)
    requires Holds(m, s, objs)
    ensures Holds(m.(peers := peers), s.(peers := peers), objs)
  {
    hide HoldNodes, HoldSandboxes, HoldVolumes, HoldKeys, HoldCluster;
  }

  lemma WithSandboxes(
      m: Maps, s: Fsm.State, objs: Objects, t: Fsm.Table<SandboxPtr>, v: Fsm.Table<Sandbox>, os: set<object>)
    requires Holds(m, s, objs) && HoldSandboxes(t.records, v.records, os) && t.names == v.names
    ensures Holds(m.(sandboxes := t), s.(sandboxes := v), objs.(sandboxes := os))
  {
    hide HoldNodes, HoldSandboxes, HoldVolumes, HoldKeys, HoldCluster;
  }

  lemma WithVolumes(
      m: Maps, s: Fsm.State, objs: Objects, t: Fsm.Table<VolumePtr>, v: Fsm.Table<Volume>, os: set<object>)
    requires Holds(m, s, objs) && HoldVolumes(t.records, v.records, os) && t.names == v.names
    ensures Holds(m.(volumes := t), s.(volumes := v), objs.(volumes := os))
  {
    hide HoldNodes, HoldSandboxes, HoldVolumes, HoldKeys, HoldCluster;
  }

  lemma WithKeys(
      m: Maps, s: Fsm.State, objs: Objects, keys: map<string, KeyPtr>, v: map<string, ApiKey>, os: set<object>)
    requires Holds(m, s, objs) && HoldKeys(keys, v, os)
    ensures Holds(m.(apiKeys := keys), s.(apiKeys := v), objs.(keys := os))
  {
    hide HoldNodes, HoldSandboxes, HoldVolumes, HoldKeys, HoldCluster;
  }

  // ---------------------------------------------------------------- snapshots

  /** A snapshot as the program holds it until it is persisted. */
  datatype Image = Image(
    cluster: Ref?<ClusterRec>, nodes: map<string, NodePtr>, peers: map<string, Peer>,
    sandboxes: map<string, SandboxPtr>, volumes: map<string, VolumePtr>, apiKeys: map<string, KeyPtr>)

  /** What persisting the snapshot writes. */
  ghost predicate Persists(img: Image, snap: Fsm.Snapshot, objs: Objects)
    reads objs.cluster, objs.nodes, objs.sandboxes, objs.volumes, objs.keys
  {
    && HoldCluster(img.cluster, snap.cluster, objs.cluster)
    && HoldNodes(img.nodes, snap.nodes, objs.nodes)
    && img.peers == snap.peers
    && HoldSandboxes(img.sandboxes, snap.sandboxes, objs.sandboxes)
    && HoldVolumes(img.volumes, snap.volumes, objs.volumes)
    && HoldKeys(img.apiKeys, snap.apiKeys, objs.keys)
  }

  lemma PartsPersist(img: Image, snap: Fsm.Snapshot, objs: Objects)
    requires Persists(img, snap, objs)
    ensures HoldCluster(img.cluster, snap.cluster, objs.cluster)
    ensures HoldNodes(img.nodes, snap.nodes, objs.nodes)
    ensures HoldSandboxes(img.sandboxes, snap.sandboxes, objs.sandboxes)
    ensures HoldVolumes(img.volumes, snap.volumes, objs.volumes)
    ensures HoldKeys(img.apiKeys, snap.apiKeys, objs.keys)
    ensures img.peers == snap.peers
  {
    hide HoldNodes, HoldSandboxes, HoldVolumes, HoldKeys, HoldCluster;
  }

  /** The copy a snapshot makes of a store, and a restore makes of a snapshot: sandboxes, volumes,
      keys and the cluster record are cloned; node structures are copied but share their labels. */
  method CopyImage(img: Image, ghost snap: Fsm.Snapshot, ghost objs: Objects)
    returns (img': Image, ghost objs': Objects)
    requires Persists(img, snap, objs)
    ensures Persists(img', snap, objs') && fresh(objs'.All() - objs.All())
    ensures fresh(objs'.cluster) && fresh(objs'.sandboxes) && fresh(objs'.volumes) && fresh(objs'.keys)
    ensures forall id :: id in img'.nodes ==> fresh(img'.nodes[id])
  {
    hide Persists, HoldNodes, HoldSandboxes, HoldVolumes, HoldKeys, HoldCluster;
    PartsPersist(img, snap, objs);
    var ns, nos := CopyNodes(img.nodes, snap.nodes, objs.nodes);
    var sbs, sos := CloneSandboxes(img.sandboxes, snap.sandboxes, objs.sandboxes);
    var vs, vos := CloneVolumes(img.volumes, snap.volumes, objs.volumes);
    var ks, kos := CloneKeys(img.apiKeys, snap.apiKeys, objs.keys);
    var c, cs := CloneClusterIfSet(img.cluster, snap.cluster, objs.cluster);
    img' := Image(c, ns, img.peers, sbs, vs, ks);
    objs' := Objects(cs, nos, sos, vos, kos);
    assert Persists(img', snap, objs') by {
      MakePersist(img', snap, objs');
    }
  }

  lemma MakePersist(img: Image, snap: Fsm.Snapshot, objs: Objects)
    requires HoldCluster(img.cluster, snap.cluster, objs.cluster)
    requires HoldNodes(img.nodes, snap.nodes, objs.nodes)
    requires HoldSandboxes(img.sandboxes, snap.sandboxes, objs.sandboxes)
    requires HoldVolumes(img.volumes, snap.volumes, objs.volumes)
    requires HoldKeys(img.apiKeys, snap.apiKeys, objs.keys)
    requires img.peers == snap.peers
    ensures Persists(img, snap, objs)
  {
    hide HoldNodes, HoldSandboxes, HoldVolumes, HoldKeys, HoldCluster;
  }

  /** The maps of a store without their indexes, as an image. */
  function Unindexed(m: Maps): Image {
    Image(m.cluster, m.nodes, m.peers, m.sandboxes.records, m.volumes.records, m.apiKeys)
  }

  lemma HoldsAsImage(m: Maps, s: Fsm.State, objs: Objects)
    ensures Holds(m, s, objs) <==>
      && Persists(Unindexed(m), Fsm.TakeSnapshot(s), objs)
      && m.sandboxes.names == s.sandboxes.names && m.volumes.names == s.volumes.names
  {
    hide HoldNodes, HoldSandboxes, HoldVolumes, HoldKeys, HoldCluster;
  }

  // ---------------------------------------------------------------- the store

  lemma PutUnfolds(t: Fsm.Table<Sandbox>, sb: Sandbox)
    ensures var (t', r) := Fsm.PutSandbox(t, sb);
      && (r != Fsm.Ok ==> t' == t)
      && (r == Fsm.Ok ==>
            t'.records == t.records[sb.id := sb.(name := if sb.name == "" then sb.spec.name else sb.name)])
  {
  }

  lemma DropUnfolds(t: Fsm.Table<Sandbox>, id: string)
    ensures var (t', r) := Fsm.DropSandbox(t, id);
      && (r == Fsm.Ok <==> id != "" && id in t.records)
      && (id != "" ==> t'.records == t.records - {id})
  {
  }

  lemma PutVolumeUnfolds(t: Fsm.Table<Volume>, v: Volume)
    ensures var (t', r) := Fsm.PutVolume(t, v);
      && (r != Fsm.Ok ==> t' == t)
      && (r == Fsm.Ok ==> t'.records == t.records[v.id := v])
  {
  }

  lemma DropVolumeUnfolds(t: Fsm.Table<Volume>, id: string)
    ensures var (t', r) := Fsm.DropVolume(t, id);
      && (r == Fsm.Ok <==> id != "" && id in t.records)
      && (id != "" ==> t'.records == t.records - {id})
  {
  }

  class Store {
    var cluster: Ref?<ClusterRec>
    var nodes: map<string, NodePtr>
    var peers: map<string, Peer>
    var sandboxes: Fsm.Table<SandboxPtr>
    var volumes: Fsm.Table<VolumePtr>
    var apiKeys: map<string, KeyPtr>

    /** The state the store denotes, and the objects it reaches. */
    ghost var state: Fsm.State
    ghost var objs: Objects

    function AllMaps(): Maps
      reads this
    {
      Maps(cluster, nodes, peers, sandboxes, volumes, apiKeys)
    }

    ghost predicate Valid()
      reads this, objs.cluster, objs.nodes, objs.sandboxes, objs.volumes, objs.keys
    {
      this !in objs.All() && Holds(AllMaps(), state, objs)
    }

    constructor ()
      ensures Valid() && state == Fsm.EMPTY
    {
      cluster := null;
      nodes, peers, apiKeys := map[], map[], map[];
      sandboxes, volumes := Fsm.Table(map[], map[]), Fsm.Table(map[], map[]);
      state := Fsm.EMPTY;
      objs := Objects({}, {}, {}, {}, {});
    }

    method CreateCluster(c: Cluster) returns (r: Fsm.Response)
      requires Valid()
      modifies this
      ensures Valid() && fresh(objs.All() - old(objs.All()))
      ensures if old(state).cluster.Some? then r == Fsm.AlreadyInitialized && state == old(state)
              else r == Fsm.Ok && state == old(state).(cluster := Some(c))
    {
      hide Holds, HoldNodes, HoldSandboxes, HoldVolumes, HoldKeys, HoldCluster;
      PartsHold(AllMaps(), state, objs);
      IsSet(cluster, state.cluster, objs.cluster);
      if cluster != null {
        return Fsm.AlreadyInitialized;
      }
      var p, os := NewCluster(c);
      WithCluster(AllMaps(), state, objs, p, Some(c), os);
      cluster := p;
      objs := objs.(cluster := os);
      state := state.(cluster := Some(c));
      return Fsm.Ok;
    }

    method UpdateCluster(c: Cluster) returns (r: Fsm.Response)
      requires Valid()
      modifies this
      ensures Valid() && fresh(objs.All() - old(objs.All()))
      ensures if old(state).cluster.None? then r == Fsm.NotInitialized && state == old(state)
              else r == Fsm.Ok && state == old(state).(cluster := Some(c))
    {
      hide Holds, HoldNodes, HoldSandboxes, HoldVolumes, HoldKeys, HoldCluster;
      PartsHold(AllMaps(), state, objs);
      IsSet(cluster, state.cluster, objs.cluster);
      if cluster == null {
        return Fsm.NotInitialized;
      }
      var p, os := NewCluster(c);
      WithCluster(AllMaps(), state, objs, p, Some(c), os);
      cluster := p;
      objs := objs.(cluster := os);
      state := state.(cluster := Some(c));
      return Fsm.Ok;
    }

    method SaveNode(n: Node) returns (r: Fsm.Response)
      requires Valid()
      modifies this
      ensures Valid() && fresh(objs.All() - old(objs.All()))
      ensures if n.id == "" then r == Fsm.RecordRequired && state == old(state)
              else r == Fsm.Ok && state == old(state).(nodes := old(state).nodes[n.id := n])
    {
      hide Holds, HoldNodes, HoldSandboxes, HoldVolumes, HoldKeys, HoldCluster;
      PartsHold(AllMaps(), state, objs);
      if n.id == "" {
        return Fsm.RecordRequired;
      }
      var m, os := PutNode(nodes, n, state.nodes, objs.nodes);
      WithNodes(AllMaps(), state, objs, m, state.nodes[n.id := n], os);
      nodes := m;
      objs := objs.(nodes := os);
      state := state.(nodes := state.nodes[n.id := n]);
      return Fsm.Ok;
    }

    method DeleteNode(id: string) returns (r: Fsm.Response)
      requires Valid()
      modifies this
      ensures Valid() && fresh(objs.All() - old(objs.All()))
      ensures if id == "" then r == Fsm.RecordRequired && state == old(state)
              else if id !in old(state).nodes then r == Fsm.NotFound && state == old(state)
              else r == Fsm.Ok && state == old(state).(nodes := old(state).nodes - {id})
    {
      hide Holds, HoldNodes, HoldSandboxes, HoldVolumes, HoldKeys, HoldCluster;
      PartsHold(AllMaps(), state, objs);
      if id == "" {
        return Fsm.RecordRequired;
      }
      NodeKeys(nodes, state.nodes, objs.nodes);
      if id !in nodes {
        return Fsm.NotFound;
      }
      DropNode(nodes, state.nodes, objs.nodes, id);
      WithNodes(AllMaps(), state, objs, nodes - {id}, state.nodes - {id}, objs.nodes);
      nodes := nodes - {id};
      state := state.(nodes := state.nodes - {id});
      return Fsm.Ok;
    }

    method SavePeer(p: Peer) returns (r: Fsm.Response)
      requires Valid()
      modifies this
      ensures Valid() && fresh(objs.All() - old(objs.All()))
      ensures if p.nodeID == "" then r == Fsm.RecordRequired && state == old(state)
              else r == Fsm.Ok && state == old(state).(peers := old(state).peers[p.nodeID := p])
    {
      hide Holds, HoldNodes, HoldSandboxes, HoldVolumes, HoldKeys, HoldCluster;
      PartsHold(AllMaps(), state, objs);
      if p.nodeID == "" {
        return Fsm.RecordRequired;
      }
      WithPeers(AllMaps(), state, objs, peers[p.nodeID := p]);
      peers := peers[p.nodeID := p];
      state := state.(peers := peers);
      return Fsm.Ok;
    }

    method DeletePeer(id: string) returns (r: Fsm.Response)
      requires Valid()
      modifies this
      ensures Valid() && fresh(objs.All() - old(objs.All()))
      ensures if id == "" then r == Fsm.RecordRequired && state == old(state)
              else r == Fsm.Ok && state == old(state).(peers := old(state).peers - {id})
    {
      hide Holds, HoldNodes, HoldSandboxes, HoldVolumes, HoldKeys, HoldCluster;
      PartsHold(AllMaps(), state, objs);
      if id == "" {
        return Fsm.RecordRequired;
      }
      WithPeers(AllMaps(), state, objs, peers - {id});
      peers := peers - {id};
      state := state.(peers := peers);
      return Fsm.Ok;
    }

    method SaveSandbox(sb: Sandbox) returns (r: Fsm.Response)
      requires Valid()
      modifies this
      ensures Valid() && fresh(objs.All() - old(objs.All()))
      ensures var put := Fsm.PutSandbox(old(state).sandboxes, sb);
        r == put.1 && state == old(state).(sandboxes := put.0)
      ensures r != Fsm.Ok ==> state == old(state)
      ensures var filed := sb.(name := if sb.name == "" then sb.spec.name else sb.name);
        r == Fsm.Ok ==> state.sandboxes.records == old(state).sandboxes.records[sb.id := filed]
    {
      hide Holds, HoldNodes, HoldSandboxes, HoldVolumes, HoldKeys, HoldCluster, Fsm.PutSandbox;
      PutUnfolds(state.sandboxes, sb);
      PartsHold(AllMaps(), state, objs);
      var t, res, os := FileSandbox(sandboxes, sb, state.sandboxes, objs.sandboxes);
      WithSandboxes(AllMaps(), state, objs, t, Fsm.PutSandbox(state.sandboxes, sb).0, os);
      sandboxes, r := t, res;
      objs := objs.(sandboxes := os);
      state := state.(sandboxes := Fsm.PutSandbox(state.sandboxes, sb).0);
    }

    method DeleteSandbox(id: string) returns (r: Fsm.Response)
      requires Valid()
      modifies this
      ensures Valid() && fresh(objs.All() - old(objs.All()))
      ensures var drop := Fsm.DropSandbox(old(state).sandboxes, id);
        r == drop.1 && state == old(state).(sandboxes := drop.0)
      ensures r == Fsm.Ok <==> id != "" && id in old(state).sandboxes.records
      ensures id != "" ==> state.sandboxes.records == old(state).sandboxes.records - {id}
    {
      hide Holds, HoldNodes, HoldSandboxes, HoldVolumes, HoldKeys, HoldCluster, Fsm.DropSandbox;
      DropUnfolds(state.sandboxes, id);
      PartsHold(AllMaps(), state, objs);
      var t, res := UnfileSandbox(sandboxes, id, state.sandboxes, objs.sandboxes);
      WithSandboxes(AllMaps(), state, objs, t, Fsm.DropSandbox(state.sandboxes, id).0, objs.sandboxes);
      sandboxes, r := t, res;
      state := state.(sandboxes := Fsm.DropSandbox(state.sandboxes, id).0);
    }

    method SaveVolume(v: Volume) returns (r: Fsm.Response)
      requires Valid()
      modifies this
      ensures Valid() && fresh(objs.All() - old(objs.All()))
      ensures var put := Fsm.PutVolume(old(state).volumes, v);
        r == put.1 && state == old(state).(volumes := put.0)
      ensures r != Fsm.Ok ==> state == old(state)
      ensures r == Fsm.Ok ==> state.volumes.records == old(state).volumes.records[v.id := v]
    {
      hide Holds, HoldNodes, HoldSandboxes, HoldVolumes, HoldKeys, HoldCluster, Fsm.PutVolume;
      PutVolumeUnfolds(state.volumes, v);
      PartsHold(AllMaps(), state, objs);
      var t, res, os := FileVolume(volumes, v, state.volumes, objs.volumes);
      WithVolumes(AllMaps(), state, objs, t, Fsm.PutVolume(state.volumes, v).0, os);
      volumes, r := t, res;
      objs := objs.(volumes := os);
      state := state.(volumes := Fsm.PutVolume(state.volumes, v).0);
    }

    method DeleteVolume(id: string) returns (r: Fsm.Response)
      requires Valid()
      modifies this
      ensures Valid() && fresh(objs.All() - old(objs.All()))
      ensures var drop := Fsm.DropVolume(old(state).volumes, id);
        r == drop.1 && state == old(state).(volumes := drop.0)
      ensures r == Fsm.Ok <==> id != "" && id in old(state).volumes.records
      ensures id != "" ==> state.volumes.records == old(state).volumes.records - {id}
    {
      hide Holds, HoldNodes, HoldSandboxes, HoldVolumes, HoldKeys, HoldCluster, Fsm.DropVolume;
      DropVolumeUnfolds(state.volumes, id);
      PartsHold(AllMaps(), state, objs);
      var t, res := UnfileVolume(volumes, id, state.volumes, objs.volumes);
      WithVolumes(AllMaps(), state, objs, t, Fsm.DropVolume(state.volumes, id).0, objs.volumes);
      volumes, r := t, res;
      state := state.(volumes := Fsm.DropVolume(state.volumes, id).0);
    }

    method SaveAPIKey(k: ApiKey) returns (r: Fsm.Response)
      requires Valid()
      modifies this
      ensures Valid() && fresh(objs.All() - old(objs.All()))
      ensures if k.id == "" || k.keyHash == "" then r == Fsm.RecordRequired && state == old(state)
              else r == Fsm.Ok && state == old(state).(apiKeys := old(state).apiKeys[k.id := k])
    {
      hide Holds, HoldNodes, HoldSandboxes, HoldVolumes, HoldKeys, HoldCluster;
      PartsHold(AllMaps(), state, objs);
      if k.id == "" || k.keyHash == "" {
        return Fsm.RecordRequired;
      }
      var m, os := PutKey(apiKeys, k, state.apiKeys, objs.keys);
      WithKeys(AllMaps(), state, objs, m, state.apiKeys[k.id := k], os);
      apiKeys := m;
      objs := objs.(keys := os);
      state := state.(apiKeys := state.apiKeys[k.id := k]);
      return Fsm.Ok;
    }

    method DeleteAPIKey(id: string) returns (r: Fsm.Response)
      requires Valid()
      modifies this
      ensures Valid() && fresh(objs.All() - old(objs.All()))
      ensures if id == "" then r == Fsm.RecordRequired && state == old(state)
              else if id !in old(state).apiKeys then r == Fsm.NotFound && state == old(state)
              else r == Fsm.Ok && state == old(state).(apiKeys := old(state).apiKeys - {id})
    {
      hide Holds, HoldNodes, HoldSandboxes, HoldVolumes, HoldKeys, HoldCluster;
      PartsHold(AllMaps(), state, objs);
      if id == "" {
        return Fsm.RecordRequired;
      }
      KeyKeys(apiKeys, state.apiKeys, objs.keys);
      if id !in apiKeys {
        return Fsm.NotFound;
      }
      DropKey(apiKeys, state.apiKeys, objs.keys, id);
      WithKeys(AllMaps(), state, objs, apiKeys - {id}, state.apiKeys - {id}, objs.keys);
      apiKeys := apiKeys - {id};
      state := state.(apiKeys := state.apiKeys - {id});
      return Fsm.Ok;
    }

    /** Applies a committed log entry. */
    method Apply(cmd: Fsm.Command) returns (r: Fsm.Response)
      requires Valid()
      modifies this
      ensures Valid() && fresh(objs.All() - old(objs.All()))
      ensures (state, r) == Fsm.Apply(old(state), cmd)
    {
      hide Valid;
      hide Fsm.PutSandbox, Fsm.DropSandbox, Fsm.PutVolume, Fsm.DropVolume;
      match cmd
      case CreateCluster(c) => r := CreateCluster(c);
      case UpdateCluster(c) => r := UpdateCluster(c);
      case SaveNode(n) => r := SaveNode(n);
      case DeleteNode(id) => r := DeleteNode(id);
      case SavePeer(p) => r := SavePeer(p);
      case DeletePeer(id) => r := DeletePeer(id);
      case SaveSandbox(sb) => r := SaveSandbox(sb);
      case DeleteSandbox(id) => r := DeleteSandbox(id);
      case SaveVolume(v) => r := SaveVolume(v);
      case DeleteVolume(id) => r := DeleteVolume(id);
      case SaveAPIKey(k) => r := SaveAPIKey(k);
      case DeleteAPIKey(id) => r := DeleteAPIKey(id);
      case Undecodable => r := Fsm.BadCommand;
      case UnknownOp(_) => r := Fsm.BadCommand;
    }

    /** A snapshot of the store. */
    method Snapshot() returns (img: Image, ghost os: Objects)
      requires Valid()
      ensures Persists(img, Fsm.TakeSnapshot(state), os) && this !in os.All()
      ensures Valid()
      ensures img.peers == state.peers && img.sandboxes.Keys == state.sandboxes.records.Keys
      ensures fresh(os.cluster) && fresh(os.sandboxes) && fresh(os.volumes) && fresh(os.keys)
      ensures forall id :: id in img.nodes ==> fresh(img.nodes[id])
    {
      hide Holds;
      HoldsAsImage(AllMaps(), state, objs);
      img, os := CopyImage(Unindexed(AllMaps()), Fsm.TakeSnapshot(state), objs);
    }

    /** Replaces the contents of the store by a decoded snapshot, rebuilding both indexes; the ghost
        results are the orders in which the loops visit the records. */
    method Restore(img: Image, ghost snap: Fsm.Snapshot, ghost os: Objects)
      returns (ghost keys: seq<string>, ghost volumeKeys: seq<string>)
      requires Valid()
      requires Persists(img, snap, os) && this !in os.All()
      modifies this
      ensures Valid()
      ensures Fsm.RestoreOrders(snap, keys, volumeKeys)
      ensures state == Fsm.Restored(snap, keys, volumeKeys)
    {
      hide Valid, Holds, Persists, HoldSandboxes, HoldVolumes, Fsm.Rebuild, Fsm.RebuildVolumes;
      var copy, os' := CopyImage(img, snap, os);
      PartsPersist(copy, snap, os');
      var names, volumeNames;
      names, keys := IndexSandboxes(copy.sandboxes, snap.sandboxes, os'.sandboxes);
      volumeNames, volumeKeys := IndexVolumes(copy.volumes, snap.volumes, os'.volumes);
      ghost var end := Fsm.Restored(snap, keys, volumeKeys);
      HoldsAsImage(Maps(copy.cluster, copy.nodes, copy.peers, Fsm.Table(copy.sandboxes, names),
                        Fsm.Table(copy.volumes, volumeNames), copy.apiKeys), end, os');
      Replace(Maps(copy.cluster, copy.nodes, copy.peers, Fsm.Table(copy.sandboxes, names),
                   Fsm.Table(copy.volumes, volumeNames), copy.apiKeys), end, os');
    }

    method Replace(m: Maps, ghost s: Fsm.State, ghost os: Objects)
      requires Holds(m, s, os) && this !in os.All()
      modifies this
      ensures Valid() && state == s
    {
      hide Holds;
      cluster, nodes, peers, apiKeys := m.cluster, m.nodes, m.peers, m.apiKeys;
      sandboxes, volumes := m.sandboxes, m.volumes;
      state, objs := s, os;
      assert AllMaps() == m;
    }

    // -------------------------------------------------------------- getters

    method GetNode(id: string) returns (n: Option<NodePtr>)
      requires Valid()
      ensures n.None? <==> id !in state.nodes
      ensures n.Some? ==> NodeOf(n.value) == state.nodes[id]
      ensures n.Some? ==> fresh(n.value) && fresh(n.value.v.labels)
    {
      hide HoldSandboxes, HoldVolumes, HoldKeys, HoldCluster;
      if id !in nodes {
        return None;
      }
      var cp := CloneNode(nodes[id]);
      return Some(cp);
    }

    method GetSandbox(id: string) returns (sb: Option<SandboxPtr>)
      requires Valid()
      ensures sb.None? <==> id !in state.sandboxes.records
      ensures sb.Some? ==> SandboxOf(sb.value) == state.sandboxes.records[id]
      ensures sb.Some? ==> fresh(sb.value) && fresh(sb.value.v.labels) && fresh(sb.value.v.mounts)
    {
      hide HoldNodes, HoldVolumes, HoldKeys, HoldCluster;
      if id !in sandboxes.records {
        return None;
      }
      var cp := CloneSandbox(sandboxes.records[id]);
      return Some(cp);
    }

    method GetSandboxByName(name: string) returns (sb: Option<SandboxPtr>)
      requires Valid()
      ensures sb.None? <==> Fsm.ByName(state.sandboxes, name).None?
      ensures sb.Some? ==> Fsm.ByName(state.sandboxes, name) == Some(SandboxOf(sb.value))
      ensures sb.Some? ==> fresh(sb.value) && fresh(sb.value.v.labels) && fresh(sb.value.v.mounts)
    {
      hide HoldNodes, HoldSandboxes, HoldVolumes, HoldKeys, HoldCluster;
      if name !in sandboxes.names {
        return None;
      }
      sb := GetSandbox(sandboxes.names[name]);
    }

    method GetVolumeByName(name: string) returns (vol: Option<VolumePtr>)
      requires Valid()
      ensures vol.None? <==> Fsm.ByName(state.volumes, name).None?
      ensures vol.Some? ==> Fsm.ByName(state.volumes, name) == Some(VolumeOf(vol.value))
      ensures vol.Some? ==> fresh(vol.value) && fresh(vol.value.v.labels)
    {
      hide HoldNodes, HoldSandboxes, HoldKeys, HoldCluster;
      if name !in volumes.names {
        return None;
      }
      var id := volumes.names[name];
      if id !in volumes.records {
        return None;
      }
      var cp := CloneVolume(volumes.records[id]);
      return Some(cp);
    }

    method ListNodes() returns (list: seq<NodePtr>, ghost keys: seq<string>)
      requires Valid()
      ensures IsKeyOrder(keys, state.nodes.Keys) && AreNodes(list, Listing(keys, state.nodes))
      ensures forall p :: p in list ==> fresh(p) && fresh(p.v.labels)
    {
      hide Holds, HoldNodes, AreNodes;
      PartsHold(AllMaps(), state, objs);
      list, keys := NodeList(nodes, state.nodes, objs.nodes);
    }

    /** The peers in an arbitrary order, which is the ghost result. */
    method ListPeers() returns (list: seq<Peer>, ghost keys: seq<string>)
      requires Valid()
      ensures IsKeyOrder(keys, state.peers.Keys)
      ensures forall k :: k in keys ==> k in state.peers
      ensures list == Listing(keys, state.peers)
    {
      hide Holds, IsKeyOrder;
      PartsHold(AllMaps(), state, objs);
      list, keys := [], [];
      NoKeys();
      var rest := peers.Keys;
      assert peers.Keys - rest == {};
      while rest != {}
        invariant rest <= peers.Keys && IsKeyOrder(keys, peers.Keys - rest)
        invariant (forall k :: k in keys ==> k in state.peers) && list == Listing(keys, state.peers)
        decreases rest
      {
        var id :| id in rest;
        KeyOrderAppend(keys, peers.Keys - rest, id);
        assert peers.Keys - (rest - {id}) == peers.Keys - rest + {id};
        list, keys, rest := list + [peers[id]], keys + [id], rest - {id};
      }
      assert peers.Keys - rest == peers.Keys;
    }

    method ListSandboxes() returns (list: seq<SandboxPtr>, ghost keys: seq<string>)
      requires Valid()
      ensures IsKeyOrder(keys, state.sandboxes.records.Keys)
      ensures AreSandboxes(list, Listing(keys, state.sandboxes.records))
      ensures forall p :: p in list ==> fresh(p) && fresh(p.v.labels) && fresh(p.v.mounts)
    {
      hide Holds, HoldSandboxes, AreSandboxes;
      PartsHold(AllMaps(), state, objs);
      list, keys := SandboxList(sandboxes.records, state.sandboxes.records, objs.sandboxes);
    }

    method ListSandboxesByNode(nodeID: string) returns (list: seq<SandboxPtr>, ghost keys: seq<string>)
      requires Valid()
      ensures IsKeyOrder(keys, state.sandboxes.records.Keys)
      ensures forall k :: k in keys ==> k in state.sandboxes.records
      ensures AreSandboxes(list, Fsm.SandboxesByNode(state.sandboxes.records, keys, nodeID))
      ensures forall p :: p in list ==> fresh(p) && fresh(p.v.labels) && fresh(p.v.mounts)
    {
      hide Holds, HoldSandboxes, AreSandboxes, Fsm.SandboxesByNode;
      PartsHold(AllMaps(), state, objs);
      list, keys := SandboxListByNode(sandboxes.records, nodeID, state.sandboxes.records, objs.sandboxes);
    }
  }
}
