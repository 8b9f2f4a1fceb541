/** What the copies buy: snapshots and callers are isolated from the store, so a snapshot persisted
    late, restored elsewhere and followed by the rest of the log rebuilds the store exactly. */
module FsmIsolation {
  import opened Records
  import opened Heap
  import opened FsmHeap
  import Fsm
  import FsmIndex

  /** Applies a log to a store. */
  method ApplyAll(store: Store, log: seq<Fsm.Command>) returns (rs: seq<Fsm.Response>)
    requires store.Valid()
    modifies store
    ensures store.Valid()
    ensures (store.state, rs) == Fsm.Exec(old(store.state), log)
  {
    hide Fsm.Apply, store.Valid;
    rs := [];
    for i := 0 to |log|
      invariant store.Valid()
      invariant (store.state, rs) == Fsm.Exec(old(store.state), log[..i])
    {
      var r := store.Apply(log[i]);
      Fsm.ExecStep(old(store.state), log[..i], log[i]);
      assert log[..i + 1] == log[..i] + [log[i]];
      rs := rs + [r];
    }
    assert log[..|log|] == log;
  }

  /** Snapshot isolation.  Whatever is applied after a snapshot returned, persisting it still writes
      the state it was taken from. */
  method SnapshotThenApply(store: Store, log: seq<Fsm.Command>) returns (img: Image, ghost os: Objects)
    requires store.Valid()
    modifies store
    ensures Persists(img, Fsm.TakeSnapshot(old(store.state)), os)
    ensures store.Valid() && store.state == Fsm.Exec(old(store.state), log).0
    ensures store !in os.All()
  {
    hide store.Valid, Persists;
    img, os := store.Snapshot();
    var _ := ApplyAll(store, log);
  }

  /** Getter isolation.  A caller may overwrite everything it reached through a returned record: the
      store does not change, nor does what a snapshot persists, and the next reader gets the record
      as stored. */
  method OverwriteWhatWasGot(
      store: Store, id: string, junk: Sandbox, labels: Labels, mounts: seq<Mount>,
      img: Image, ghost snap: Fsm.Snapshot, ghost os: Objects) returns (again: Option<SandboxPtr>)
    requires store.Valid() && Persists(img, snap, os)
    ensures store.Valid() && store.state == old(store.state) && Persists(img, snap, os)
    ensures if id in store.state.sandboxes.records
      then again.Some? && SandboxOf(again.value) == store.state.sandboxes.records[id]
      else again.None?
  {
    hide Holds, Persists;
    var got := store.GetSandbox(id);
    if got.Some? {
      got.value.v.labels.v := labels;
      got.value.v.mounts.v := mounts;
      got.value.v := got.value.v.(base := junk);
    }
    again := store.GetSandbox(id);
  }

  /** The same for a node record. */
  method OverwriteNodeGot(
      store: Store, id: string, junk: Node, labels: Labels,
      img: Image, ghost snap: Fsm.Snapshot, ghost os: Objects) returns (again: Option<NodePtr>)
    requires store.Valid() && Persists(img, snap, os)
    ensures store.Valid() && store.state == old(store.state) && Persists(img, snap, os)
    ensures if id in store.state.nodes
      then again.Some? && NodeOf(again.value) == store.state.nodes[id]
      else again.None?
  {
    hide Holds, Persists;
    var got := store.GetNode(id);
    if got.Some? {
      got.value.v.labels.v := labels;
      got.value.v := got.value.v.(base := junk);
    }
    again := store.GetNode(id);
  }

  /** A new replica restores a persisted snapshot and applies the commands that followed it. */
  method CatchUp(
      img: Image, ghost snap: Fsm.Snapshot, ghost os: Objects, tail: seq<Fsm.Command>)
    returns (follower: Store, rs: seq<Fsm.Response>, ghost keys: seq<string>, ghost volumeKeys: seq<string>)
    requires Persists(img, snap, os)
    ensures fresh(follower) && follower.Valid()
    ensures Fsm.RestoreOrders(snap, keys, volumeKeys)
    ensures (follower.state, rs) == Fsm.Exec(Fsm.Restored(snap, keys, volumeKeys), tail)
  {
    hide Holds, Persists, Fsm.Exec, Fsm.Restored, Fsm.RestoreOrders;
    follower := new Store();
    keys, volumeKeys := follower.Restore(img, snap, os);
    rs := ApplyAll(follower, tail);
  }

  /** One replica applies the whole log; the snapshot it took at the cut, where both indexes are exact,
      is persisted only after that.  A second replica restores it and applies the rest: both end in the
      same state, with the same responses. */
  method RestoreAndCatchUp(log: seq<Fsm.Command>, cut: nat)
    returns (leader: Store, follower: Store, rs: seq<Fsm.Response>, tail: seq<Fsm.Response>)
    requires cut <= |log|
    requires FsmIndex.Exact(Fsm.Exec(Fsm.EMPTY, log[..cut]).0)
    ensures leader.Valid() && follower.Valid()
    ensures leader.state == follower.state == Fsm.Exec(Fsm.EMPTY, log).0
    ensures rs == Fsm.Exec(Fsm.EMPTY, log).1 && |rs| == |log| && tail == rs[cut..]
  {
    hide Holds, Persists, Fsm.Exec, Fsm.Restored, Fsm.RestoreOrders, FsmIndex.Exact;
    leader := new Store();
    var head := ApplyAll(leader, log[..cut]);
    ghost var mid := leader.state;
    var img, os := SnapshotThenApply(leader, log[cut..]);
    ghost var keys, volumeKeys;
    follower, tail, keys, volumeKeys := CatchUp(img, Fsm.TakeSnapshot(mid), os, log[cut..]);
    rs := head + tail;
    FsmIndex.SnapshotThenReplay(log, cut, keys, volumeKeys);
    Fsm.ExecAppend(Fsm.EMPTY, log[..cut], log[cut..]);
    assert log[..cut] + log[cut..] == log;
    Fsm.ExecLength(Fsm.EMPTY, log[..cut]);
    Fsm.ExecLength(Fsm.Restored(Fsm.TakeSnapshot(mid), keys, volumeKeys), log[cut..]);
  }
}
