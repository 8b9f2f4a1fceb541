/** The name indexes of the replicated state machine: when they agree with a scan, and that
    restoring a snapshot and replaying the rest of the log is the same as replaying everything. */
module FsmIndex {
  import opened Records
  import opened Seqs
  import opened Fsm

  /** Which tables a command touches. */
  lemma ApplyByTable(s: State, cmd: Command)
    ensures Apply(s, cmd).0.sandboxes == ApplyToSandboxes(s.sandboxes, cmd).0
    ensures Apply(s, cmd).0.volumes == ApplyToVolumes(s.volumes, cmd).0
    ensures !cmd.SaveNode? && !cmd.DeleteNode? ==> Apply(s, cmd).0.nodes == s.nodes
  {
    hide PutSandbox, DropSandbox, PutVolume, DropVolume;
  }

  // ---------------------------------------------------------------- unique names, for every log

  /** Every stored non-empty name is indexed under its own sandbox. */
  ghost predicate NamesClaimed(t: Table<Sandbox>) {
    forall id :: id in t.records && t.records[id].name != "" ==>
      t.records[id].name in t.names && t.names[t.records[id].name] == id
  }

  lemma PutKeepsClaims(t: Table<Sandbox>, sb: Sandbox)
    requires NamesClaimed(t)
    ensures NamesClaimed(PutSandbox(t, sb).0)
  {
    var t' := PutSandbox(t, sb).0;
    forall id | id in t'.records && t'.records[id].name != ""
      ensures t'.records[id].name in t'.names && t'.names[t'.records[id].name] == id
    {
      if id != sb.id {
        assert id in t.records && t'.records[id] == t.records[id];
      }
    }
  }

  lemma DropKeepsClaims(t: Table<Sandbox>, id: string)
    requires NamesClaimed(t)
    ensures NamesClaimed(DropSandbox(t, id).0)
  {
  }

  /** Records are filed under their own, non-empty identifier. */
  ghost predicate Keyed(s: State) {
    && (forall id :: id in s.sandboxes.records ==> id != "" && s.sandboxes.records[id].id == id)
    && (forall id :: id in s.volumes.records ==> id != "" && s.volumes.records[id].id == id)
    && (forall id :: id in s.nodes ==> id != "" && s.nodes[id].id == id)
  }

  lemma ApplyKeepsClaims(s: State, cmd: Command)
    requires NamesClaimed(s.sandboxes)
    ensures NamesClaimed(Apply(s, cmd).0.sandboxes)
  {
    ApplyByTable(s, cmd);
    match cmd
    case SaveSandbox(sb) => PutKeepsClaims(s.sandboxes, sb);
    case DeleteSandbox(id) => DropKeepsClaims(s.sandboxes, id);
    case _ =>
  }

  lemma ApplyKeepsKeyed(s: State, cmd: Command)
    requires Keyed(s)
    ensures Keyed(Apply(s, cmd).0)
  {
    ApplyByTable(s, cmd);
    match cmd
    case SaveSandbox(_) =>
    case DeleteSandbox(_) =>
    case SaveVolume(_) =>
    case DeleteVolume(_) =>
    case SaveNode(_) =>
    case DeleteNode(_) =>
    case _ =>
  }

  ghost predicate UniqueNames(sandboxes: map<string, Sandbox>) {
    forall a, b :: a in sandboxes && b in sandboxes && sandboxes[a].name == sandboxes[b].name != "" ==> a == b
  }

  /** Whatever commands were applied, no two stored sandboxes share a non-empty name, and every
      record is filed under its own identifier. */
  lemma {:induction false} NamesAreUnique(log: seq<Command>)
    ensures var s := Exec(EMPTY, log).0;
      NamesClaimed(s.sandboxes) && UniqueNames(s.sandboxes.records) && Keyed(s)
  {
    hide Apply;
    if |log| > 0 {
      NamesAreUnique(log[..|log| - 1]);
      ApplyKeepsClaims(Exec(EMPTY, log[..|log| - 1]).0, log[|log| - 1]);
      ApplyKeepsKeyed(Exec(EMPTY, log[..|log| - 1]).0, log[|log| - 1]);
    }
  }

  // ---------------------------------------------------------------- exact indexes

  /** Every name that a sandbox has is indexed, and every indexed name leads to a sandbox that has it. */
  ghost predicate RebuiltNames(names: map<string, string>, sandboxes: map<string, Sandbox>) {
    && (forall id :: id in sandboxes && sandboxes[id].name != "" ==> sandboxes[id].name in names)
    && (forall n :: n in names ==> n != "" && names[n] in sandboxes && sandboxes[names[n]].name == n)
  }

  ghost predicate RebuiltVolumeNames(names: map<string, string>, volumes: map<string, Volume>) {
    && (forall id :: id in volumes && Indexed(volumes[id]) ==> volumes[id].name in names)
    && (forall n :: n in names ==>
          names[n] in volumes && Indexed(volumes[names[n]]) && volumes[names[n]].name == n)
  }

  /** The index is exactly the inverse of the stored names. */
  ghost predicate ExactNames(t: Table<Sandbox>) {
    && NamesClaimed(t)
    && RebuiltNames(t.names, t.records)
  }

  /** Every indexed volume is the one its name leads to. */
  ghost predicate VolumesClaimed(t: Table<Volume>) {
    forall id :: id in t.records && Indexed(t.records[id]) ==>
      t.records[id].name in t.names && t.names[t.records[id].name] == id
  }

  ghost predicate ExactVolumeNames(t: Table<Volume>) {
    VolumesClaimed(t) && RebuiltVolumeNames(t.names, t.records)
  }

  ghost predicate Exact(s: State) {
    ExactNames(s.sandboxes) && ExactVolumeNames(s.volumes)
  }

  /** A scan of the records for a sandbox of this name. */
  ghost predicate ScanFinds(records: map<string, Sandbox>, name: string, sb: Sandbox) {
    exists id :: id in records && records[id] == sb && sb.name == name
  }

  /** A scan of the records for a named volume of this name. */
  ghost predicate ScanFindsVolume(records: map<string, Volume>, name: string, v: Volume) {
    exists id :: id in records && records[id] == v && Indexed(v) && v.name == name
  }

  /** With an exact sandbox index, looking a name up finds exactly what a scan for it finds. */
  lemma SandboxLookupIsScan(t: Table<Sandbox>, name: string)
    requires ExactNames(t) && name != ""
    ensures forall sb :: ByName(t, name) == Some(sb) <==> ScanFinds(t.records, name, sb)
  {
  }

  /** With an exact volume index, looking a name up finds exactly what a scan for it finds. */
  lemma VolumeLookupIsScan(t: Table<Volume>, name: string)
    requires ExactVolumeNames(t)
    ensures forall v :: ByName(t, name) == Some(v) <==> ScanFindsVolume(t.records, name, v)
  {
  }

  /** A save that takes the name of a stored sandbox away leaves the old index entry behind. */
  predicate UnnamesSandbox(s: State, cmd: Command) {
    && cmd.SaveSandbox?
    && EffectiveName(cmd.sandbox) == ""
    && cmd.sandbox.id != ""
    && cmd.sandbox.id in s.sandboxes.records
    && s.sandboxes.records[cmd.sandbox.id].name != ""
  }

  /** The commands after which the volume index no longer agrees with the volumes: a save that turns
      an indexed volume into one that is not, and a save or deletion that drops the entry of a name
      whose holder is another, indexed volume. */
  predicate BreaksVolumeIndex(s: State, cmd: Command) {
    match cmd
    case SaveVolume(v) =>
      && v.id != "" && v.id in s.volumes.records
      && var stored := s.volumes.records[v.id];
         if !Indexed(v) then Indexed(stored)
         else
           && !(v.name in s.volumes.names && s.volumes.names[v.name] != v.id)
           && !stored.kind.NamedVolume? && stored.name != v.name && stored.name in s.volumes.names
    case DeleteVolume(id) =>
      && id != "" && id in s.volumes.records
      && !s.volumes.records[id].kind.NamedVolume? && s.volumes.records[id].name in s.volumes.names
    case _ => false
  }

  /** Exactly which commands keep the sandbox index exact. */
  lemma NamesStayExactIff(s: State, cmd: Command)
    requires ExactNames(s.sandboxes)
    ensures ExactNames(Apply(s, cmd).0.sandboxes) <==> !UnnamesSandbox(s, cmd)
  {
    ApplyByTable(s, cmd);
    match cmd
    case SaveSandbox(sb) =>
      PutKeepsClaims(s.sandboxes, sb);
      PutExactIff(s.sandboxes, sb);
    case DeleteSandbox(id) => DropKeepsClaims(s.sandboxes, id);
    case _ =>
  }

  lemma PutExactIff(t: Table<Sandbox>, sb: Sandbox)
    requires ExactNames(t)
    ensures RebuiltNames(PutSandbox(t, sb).0.names, PutSandbox(t, sb).0.records)
      <==> !(EffectiveName(sb) == "" && sb.id != "" && sb.id in t.records && t.records[sb.id].name != "")
  {
    var t' := PutSandbox(t, sb).0;
    if EffectiveName(sb) == "" && sb.id != "" && sb.id in t.records && t.records[sb.id].name != "" {
      assert t'.names[t.records[sb.id].name] == sb.id;
    } else if t' != t {
      forall n | n in t'.names
        ensures n != "" && t'.names[n] in t'.records && t'.records[t'.names[n]].name == n
      {
        if t'.names[n] != sb.id {
          assert n in t.names && t'.names[n] == t.names[n];
        }
      }
    }
  }

  /** Exactly which commands keep the volume index exact. */
  lemma VolumeNamesStayExactIff(s: State, cmd: Command)
    requires ExactVolumeNames(s.volumes)
    ensures ExactVolumeNames(Apply(s, cmd).0.volumes) <==> !BreaksVolumeIndex(s, cmd)
  {
    ApplyByTable(s, cmd);
    match cmd
    case SaveVolume(v) => SaveVolumeExactIff(s, v);
    case DeleteVolume(id) => DeleteVolumeExactIff(s, id);
    case _ =>
  }

  lemma SaveVolumeExactIff(s: State, v: Volume)
    requires ExactVolumeNames(s.volumes)
    ensures ExactVolumeNames(PutVolume(s.volumes, v).0) <==> !BreaksVolumeIndex(s, SaveVolume(v))
  {
    var t, t' := s.volumes, PutVolume(s.volumes, v).0;
    if BreaksVolumeIndex(s, SaveVolume(v)) {
      if Indexed(v) {
        var holder := t.names[t.records[v.id].name];
        assert t'.records[holder] == t.records[holder];
      } else {
        assert t'.names[t.records[v.id].name] == v.id;
      }
    } else if t' != t {
      forall id | id in t'.records && Indexed(t'.records[id])
        ensures t'.records[id].name in t'.names && t'.names[t'.records[id].name] == id
      {
        if id != v.id {
          assert id in t.records && t'.records[id] == t.records[id];
        }
      }
      forall n | n in t'.names
        ensures t'.names[n] in t'.records && Indexed(t'.records[t'.names[n]]) && t'.records[t'.names[n]].name == n
      {
        if t'.names[n] != v.id {
          assert n in t.names && t'.names[n] == t.names[n];
        }
      }
    }
  }

  lemma DeleteVolumeExactIff(s: State, id: string)
    requires ExactVolumeNames(s.volumes)
    ensures ExactVolumeNames(DropVolume(s.volumes, id).0) <==> !BreaksVolumeIndex(s, DeleteVolume(id))
  {
    var t, t' := s.volumes, DropVolume(s.volumes, id).0;
    if BreaksVolumeIndex(s, DeleteVolume(id)) {
      var holder := t.names[t.records[id].name];
      assert t'.records[holder] == t.records[holder];
    } else if id != "" && id in t.records {
      forall w | w in t'.records && Indexed(t'.records[w])
        ensures t'.records[w].name in t'.names && t'.names[t'.records[w].name] == w
      {
        assert t'.records[w] == t.records[w];
      }
    }
  }

  // ---------------------------------------------------------------- exactness over whole logs

  /** Whether the command breaks an index that was exact before it. */
  predicate BreaksAnIndex(s: State, cmd: Command) {
    UnnamesSandbox(s, cmd) || BreaksVolumeIndex(s, cmd)
  }

  /** No command of the log breaks an index when it is applied. */
  ghost predicate Orderly(log: seq<Command>) {
    forall i :: 0 <= i < |log| ==> !BreaksAnIndex(Exec(EMPTY, log[..i]).0, log[i])
  }

  /** The indexes are exact after every prefix of the log. */
  ghost predicate ExactThroughout(log: seq<Command>) {
    forall k :: 0 <= k <= |log| ==> Exact(Exec(EMPTY, log[..k]).0)
  }

  /** Over a whole log: the indexes are exact after every prefix if and only if no command of the log
      breaks one when it is applied. */
  lemma {:induction false} ExactThroughoutIff(log: seq<Command>)
    ensures ExactThroughout(log) <==> Orderly(log)
  {
    hide Apply, Exec, BreaksAnIndex, Exact;
    if |log| == 0 {
      assert log[..0] == [];
      ExactAtStart();
    } else {
      var init, cmd := log[..|log| - 1], log[|log| - 1];
      assert log == init + [cmd];
      ExactThroughoutIff(init);
      PrefixesOf(init, cmd);
      if Exact(Exec(EMPTY, init).0) {
        ExecStep(EMPTY, init, cmd);
        ExactStep(Exec(EMPTY, init).0, cmd);
      }
    }
  }

  lemma PrefixesOf(init: seq<Command>, cmd: Command)
    ensures ExactThroughout(init + [cmd]) <==> ExactThroughout(init) && Exact(Exec(EMPTY, init + [cmd]).0)
    ensures Orderly(init + [cmd]) <==> Orderly(init) && !BreaksAnIndex(Exec(EMPTY, init).0, cmd)
    ensures ExactThroughout(init) ==> Exact(Exec(EMPTY, init).0)
  {
    hide Exec, BreaksAnIndex, Exact;
    var log := init + [cmd];
    assert forall k :: 0 <= k <= |init| ==> log[..k] == init[..k];
    assert log[..|log|] == log && init[..|init|] == init && log[|init|] == cmd;
    assert forall i :: 0 <= i < |init| ==> log[i] == init[i];
  }

  lemma ExactAtStart()
    ensures Exact(Exec(EMPTY, []).0)
  {
  }

  lemma ExactStep(s: State, cmd: Command)
    requires Exact(s)
    ensures Exact(Apply(s, cmd).0) <==> !BreaksAnIndex(s, cmd)
  {
    hide Apply, ExactNames, ExactVolumeNames, UnnamesSandbox, BreaksVolumeIndex;
    NamesStayExactIff(s, cmd);
    VolumeNamesStayExactIff(s, cmd);
  }

  // ---------------------------------------------------------------- rebuilding an index

  /** The index covers the names of the visited sandboxes and leads to visited sandboxes that have them. */
  ghost predicate IndexesVisited(names: map<string, string>, keys: seq<string>, sandboxes: map<string, Sandbox>)
    requires forall k :: k in keys ==> k in sandboxes
  {
    && (forall k :: k in keys && sandboxes[k].name != "" ==> sandboxes[k].name in names)
    && (forall n :: n in names ==> n != "" && names[n] in keys && sandboxes[names[n]].name == n)
  }

  ghost predicate IndexesVisitedVolumes(names: map<string, string>, keys: seq<string>, volumes: map<string, Volume>)
    requires forall k :: k in keys ==> k in volumes
  {
    && (forall k :: k in keys && Indexed(volumes[k]) ==> volumes[k].name in names)
    && (forall n :: n in names ==> names[n] in keys && Indexed(volumes[names[n]]) && volumes[names[n]].name == n)
  }

  lemma VisitOne(names: map<string, string>, keys: seq<string>, last: string, sandboxes: map<string, Sandbox>)
    requires last in sandboxes && forall k :: k in keys ==> k in sandboxes
    requires IndexesVisited(names, keys, sandboxes)
    ensures var name := sandboxes[last].name;
      IndexesVisited(if name != "" then names[name := last] else names, keys + [last], sandboxes)
  {
  }

  lemma VisitOneVolume(names: map<string, string>, keys: seq<string>, last: string, volumes: map<string, Volume>)
    requires last in volumes && forall k :: k in keys ==> k in volumes
    requires IndexesVisitedVolumes(names, keys, volumes)
    ensures
      IndexesVisitedVolumes(
        if Indexed(volumes[last]) then names[volumes[last].name := last] else names, keys + [last], volumes)
  {
  }

  /** In whatever order the loop visits the sandboxes, it indexes exactly the names they have, and the
      name of the last visited one under that one. */
  lemma {:induction false} RebuildMeaning(keys: seq<string>, sandboxes: map<string, Sandbox>)
    requires forall k :: k in keys ==> k in sandboxes
    ensures IndexesVisited(Rebuild(keys, sandboxes), keys, sandboxes)
    ensures |keys| > 0 ==>
      var last := keys[|keys| - 1];
      sandboxes[last].name != "" ==>
        sandboxes[last].name in Rebuild(keys, sandboxes) && Rebuild(keys, sandboxes)[sandboxes[last].name] == last
  {
    hide IndexesVisited;
    if |keys| == 0 {
      NothingVisited(sandboxes);
    } else {
      var init, last := keys[..|keys| - 1], keys[|keys| - 1];
      RebuildMeaning(init, sandboxes);
      VisitOne(Rebuild(init, sandboxes), init, last, sandboxes);
      assert keys == init + [last];
    }
  }

  lemma NothingVisited(sandboxes: map<string, Sandbox>)
    ensures IndexesVisited(map[], [], sandboxes)
  {
  }

  lemma {:induction false} RebuildVolumesMeaning(keys: seq<string>, volumes: map<string, Volume>)
    requires forall k :: k in keys ==> k in volumes
    ensures IndexesVisitedVolumes(RebuildVolumes(keys, volumes), keys, volumes)
    ensures |keys| > 0 ==>
      var last, names := keys[|keys| - 1], RebuildVolumes(keys, volumes);
      Indexed(volumes[last]) ==> volumes[last].name in names && names[volumes[last].name] == last
  {
    hide IndexesVisitedVolumes;
    if |keys| == 0 {
      NoVolumeVisited(volumes);
    } else {
      var init, last := keys[..|keys| - 1], keys[|keys| - 1];
      RebuildVolumesMeaning(init, volumes);
      VisitOneVolume(RebuildVolumes(init, volumes), init, last, volumes);
      assert keys == init + [last];
    }
  }

  lemma NoVolumeVisited(volumes: map<string, Volume>)
    ensures IndexesVisitedVolumes(map[], [], volumes)
  {
  }

  /** The index rebuilt in an order of the keys. */
  ghost predicate RebuiltInSomeOrder(names: map<string, string>, sandboxes: map<string, Sandbox>) {
    exists keys :: RebuiltIn(keys, names, sandboxes)
  }

  ghost predicate RebuiltIn(keys: seq<string>, names: map<string, string>, sandboxes: map<string, Sandbox>) {
    IsKeyOrder(keys, sandboxes.Keys) && (forall k :: k in keys ==> k in sandboxes) && names == Rebuild(keys, sandboxes)
  }

  /** The loop over the sandboxes leaves one index for all visiting orders if and only if no two of
      them share a non-empty name. */
  lemma RebuildIsOrderIndependentIff(sandboxes: map<string, Sandbox>)
    ensures UniqueNames(sandboxes) <==>
      forall a, b :: RebuiltInSomeOrder(a, sandboxes) && RebuiltInSomeOrder(b, sandboxes) ==> a == b
  {
    hide RebuiltInSomeOrder;
    if UniqueNames(sandboxes) {
      forall a, b | RebuiltInSomeOrder(a, sandboxes) && RebuiltInSomeOrder(b, sandboxes) ensures a == b {
        SomeOrderMeaning(a, sandboxes);
        SomeOrderMeaning(b, sandboxes);
        SameNames(a, b, sandboxes);
      }
    } else {
      var x, y :| x in sandboxes && y in sandboxes && sandboxes[x].name == sandboxes[y].name != "" && x != y;
      LastOneWins(sandboxes, x);
      LastOneWins(sandboxes, y);
    }
  }

  lemma SomeOrderMeaning(names: map<string, string>, sandboxes: map<string, Sandbox>)
    requires RebuiltInSomeOrder(names, sandboxes)
    ensures RebuiltNames(names, sandboxes)
  {
    var keys :| RebuiltIn(keys, names, sandboxes);
    OrderMembers(keys, sandboxes.Keys);
    RebuildCovers(keys, sandboxes);
  }

  lemma SameNames(a: map<string, string>, b: map<string, string>, sandboxes: map<string, Sandbox>)
    requires UniqueNames(sandboxes)
    requires RebuiltNames(a, sandboxes) && RebuiltNames(b, sandboxes)
    ensures a == b
  {
    forall n | n in a || n in b
      ensures n in a && n in b && a[n] == b[n]
    {
      var id := if n in a then a[n] else b[n];
      assert sandboxes[id].name == n;
    }
  }

  /** Some order of the loop indexes a name under any given sandbox that has it. */
  lemma LastOneWins(sandboxes: map<string, Sandbox>, id: string)
    requires id in sandboxes && sandboxes[id].name != ""
    ensures exists names ::
      RebuiltInSomeOrder(names, sandboxes) && sandboxes[id].name in names && names[sandboxes[id].name] == id
  {
    var keys := OrderEndingIn(sandboxes.Keys, id);
    OrderMembers(keys, sandboxes.Keys);
    RebuildMeaning(keys, sandboxes);
    assert RebuiltIn(keys, Rebuild(keys, sandboxes), sandboxes);
  }

  // ---------------------------------------------------------------- snapshot and replay

  /** Restoring a snapshot gives back the state it was taken from, whatever the visiting orders. */
  ghost predicate GivesBack(s: State) {
    forall keys, volumeKeys :: RestoreOrders(TakeSnapshot(s), keys, volumeKeys) ==>
      Restored(TakeSnapshot(s), keys, volumeKeys) == s
  }

  /** Restoring a snapshot gives back the state it was taken from, for every visiting order, exactly
      when both indexes of that state are exact. */
  lemma RestoreGivesBackIff(s: State)
    requires NamesClaimed(s.sandboxes)
    ensures GivesBack(s) <==> Exact(s)
  {
    hide Rebuild, RebuildVolumes, RestoreOrders, Restored;
    if Exact(s) {
      forall keys, volumeKeys | RestoreOrders(TakeSnapshot(s), keys, volumeKeys)
        ensures Restored(TakeSnapshot(s), keys, volumeKeys) == s
      {
        RestoreGivesBack(s, keys, volumeKeys);
      }
    } else if !VolumesClaimed(s.volumes) {
      var id :| id in s.volumes.records && Indexed(s.volumes.records[id])
        && !(s.volumes.records[id].name in s.volumes.names && s.volumes.names[s.volumes.records[id].name] == id);
      var keys := SomeOrder(s.sandboxes.records.Keys);
      var volumeKeys := OrderEndingIn(s.volumes.records.Keys, id);
      RestoredIndexes(s, keys, volumeKeys);
    } else {
      var keys := SomeOrder(s.sandboxes.records.Keys);
      var volumeKeys := SomeOrder(s.volumes.records.Keys);
      RestoredIndexes(s, keys, volumeKeys);
    }
  }

  /** What the indexes of a restored state are. */
  lemma RestoredIndexes(s: State, keys: seq<string>, volumeKeys: seq<string>)
    requires IsKeyOrder(keys, s.sandboxes.records.Keys) && IsKeyOrder(volumeKeys, s.volumes.records.Keys)
    ensures RestoreOrders(TakeSnapshot(s), keys, volumeKeys)
    ensures
      var s' := Restored(TakeSnapshot(s), keys, volumeKeys);
      && RebuiltNames(s'.sandboxes.names, s.sandboxes.records)
      && RebuiltVolumeNames(s'.volumes.names, s.volumes.records)
      && (|volumeKeys| > 0 ==>
            var last := volumeKeys[|volumeKeys| - 1];
            last in s.volumes.records
            && (Indexed(s.volumes.records[last]) ==>
                  s.volumes.records[last].name in s'.volumes.names
                  && s'.volumes.names[s.volumes.records[last].name] == last))
  {
    hide Rebuild, RebuildVolumes;
    OrderMembers(keys, s.sandboxes.records.Keys);
    OrderMembers(volumeKeys, s.volumes.records.Keys);
    RebuildCovers(keys, s.sandboxes.records);
    RebuildVolumesCover(volumeKeys, s.volumes.records);
  }

  lemma RebuildCovers(keys: seq<string>, sandboxes: map<string, Sandbox>)
    requires forall k :: k in keys <==> k in sandboxes
    ensures RebuiltNames(Rebuild(keys, sandboxes), sandboxes)
  {
    hide Rebuild;
    RebuildMeaning(keys, sandboxes);
    assert forall id :: id in sandboxes ==> id in keys;
  }

  lemma RebuildVolumesCover(keys: seq<string>, volumes: map<string, Volume>)
    requires forall k :: k in keys <==> k in volumes
    ensures var names := RebuildVolumes(keys, volumes);
      && RebuiltVolumeNames(names, volumes)
      && (|keys| > 0 ==>
            var last := keys[|keys| - 1];
            Indexed(volumes[last]) ==> volumes[last].name in names && names[volumes[last].name] == last)
  {
    hide RebuildVolumes;
    RebuildVolumesMeaning(keys, volumes);
    assert forall id :: id in volumes ==> id in keys;
  }

  lemma RestoreGivesBack(s: State, keys: seq<string>, volumeKeys: seq<string>)
    requires Exact(s)
    requires RestoreOrders(TakeSnapshot(s), keys, volumeKeys)
    ensures Restored(TakeSnapshot(s), keys, volumeKeys) == s
  {
    hide Rebuild, RebuildVolumes;
    RestoredIndexes(s, keys, volumeKeys);
    var s' := Restored(TakeSnapshot(s), keys, volumeKeys);
    SameNames(s.sandboxes.names, s'.sandboxes.names, s.sandboxes.records);
    SameVolumeNames(s.volumes, s'.volumes.names);
  }

  lemma SameVolumeNames(t: Table<Volume>, names: map<string, string>)
    requires ExactVolumeNames(t) && RebuiltVolumeNames(names, t.records)
    ensures names == t.names
  {
    forall n | n in names || n in t.names
      ensures n in names && n in t.names && names[n] == t.names[n]
    {
      var id := if n in names then names[n] else t.names[n];
      assert t.records[id].name == n && Indexed(t.records[id]);
      assert n in t.names && t.names[n] == id;
      assert n in names && Indexed(t.records[names[n]]) && t.records[names[n]].name == n;
    }
  }

  /** Snapshot and replay.  For every log and every cut at which both indexes are exact, and so for
      every cut of an orderly log: restoring a snapshot taken at the cut, in whatever orders, and
      applying the rest gives the state and the responses of applying the whole log. */
  lemma SnapshotThenReplay(log: seq<Command>, cut: nat, keys: seq<string>, volumeKeys: seq<string>)
    requires cut <= |log|
    requires Exact(Exec(EMPTY, log[..cut]).0)
    requires RestoreOrders(TakeSnapshot(Exec(EMPTY, log[..cut]).0), keys, volumeKeys)
    ensures
      var restored := Restored(TakeSnapshot(Exec(EMPTY, log[..cut]).0), keys, volumeKeys);
      && Exec(restored, log[cut..]).0 == Exec(EMPTY, log).0
      && Exec(EMPTY, log[..cut]).1 + Exec(restored, log[cut..]).1 == Exec(EMPTY, log).1
  {
    hide Apply, Exec, Exact, Restored, RestoreOrders;
    RestoreGivesBack(Exec(EMPTY, log[..cut]).0, keys, volumeKeys);
    ExecAppend(EMPTY, log[..cut], log[cut..]);
    assert log[..cut] + log[cut..] == log;
  }

  // ---------------------------------------------------------------- logs as the program writes them

  /** Every sandbox save of the log has an effective name. */
  ghost predicate NamesSandboxes(log: seq<Command>) {
    forall c :: c in log && c.SaveSandbox? ==> EffectiveName(c.sandbox) != ""
  }

  /** Every save of a named volume has a name; all saves of one volume identifier agree on the kind; and
      no default volume carries the name of a named one. */
  ghost predicate SeparatesVolumes(log: seq<Command>) {
    && (forall c :: c in log && c.SaveVolume? && c.volume.kind.NamedVolume? ==> c.volume.name != "")
    && (forall c, d :: c in log && d in log && c.SaveVolume? && d.SaveVolume? && c.volume.id == d.volume.id ==>
          c.volume.kind == d.volume.kind)
    && (forall c, d :: c in log && d in log && c.SaveVolume? && d.SaveVolume? ==>
          c.volume.kind.DefaultVolume? && d.volume.kind.NamedVolume? ==> c.volume.name != d.volume.name)
  }

  /** Sandbox index equals scan, for every log that names its sandboxes, whatever it does to volumes. */
  lemma {:induction false} NamedSandboxesAreExact(log: seq<Command>)
    requires NamesSandboxes(log)
    ensures ExactNames(Exec(EMPTY, log).0.sandboxes)
  {
    hide Apply, ExactNames;
    if |log| == 0 {
      ExactAtStart();
    } else {
      var init, cmd := log[..|log| - 1], log[|log| - 1];
      assert log == init + [cmd];
      NamedSandboxesAreExact(init);
      NamesStayExactIff(Exec(EMPTY, init).0, cmd);
    }
  }

  lemma SandboxLookupOverLogs(log: seq<Command>, name: string)
    requires NamesSandboxes(log) && name != ""
    ensures var t := Exec(EMPTY, log).0.sandboxes;
      forall sb :: ByName(t, name) == Some(sb) <==> ScanFinds(t.records, name, sb)
  {
    hide Exec, ExactNames;
    NamedSandboxesAreExact(log);
    SandboxLookupIsScan(Exec(EMPTY, log).0.sandboxes, name);
  }

  /** Volume index equals scan, for every log that keeps default and named volumes apart, whatever it
      does to sandboxes. */
  lemma {:induction false} SeparateVolumesAreExact(log: seq<Command>)
    requires SeparatesVolumes(log)
    ensures ExactVolumeNames(Exec(EMPTY, log).0.volumes)
  {
    hide Apply, ExactVolumeNames, BreaksVolumeIndex;
    if |log| == 0 {
      ExactAtStart();
    } else {
      var init, cmd := log[..|log| - 1], log[|log| - 1];
      assert log == init + [cmd];
      assert forall c :: c in init ==> c in log;
      SeparateVolumesAreExact(init);
      SeparateVolumeCommand(init, cmd, log);
      VolumeNamesStayExactIff(Exec(EMPTY, init).0, cmd);
    }
  }

  lemma VolumeLookupOverLogs(log: seq<Command>, name: string)
    requires SeparatesVolumes(log)
    ensures var t := Exec(EMPTY, log).0.volumes;
      forall v :: ByName(t, name) == Some(v) <==> ScanFindsVolume(t.records, name, v)
  {
    hide Exec, ExactVolumeNames;
    SeparateVolumesAreExact(log);
    VolumeLookupIsScan(Exec(EMPTY, log).0.volumes, name);
  }

  /** Every stored volume was saved by a command of the log. */
  lemma {:induction false} VolumesComeFromLog(log: seq<Command>)
    ensures var s := Exec(EMPTY, log).0;
      forall id :: id in s.volumes.records ==>
        s.volumes.records[id].id == id && SaveVolume(s.volumes.records[id]) in log
  {
    hide Apply;
    if |log| > 0 {
      var init, cmd := log[..|log| - 1], log[|log| - 1];
      assert log == init + [cmd];
      VolumesComeFromLog(init);
      ExecStep(EMPTY, init, cmd);
      ApplyByTable(Exec(EMPTY, init).0, cmd);
      var t, t' := Exec(EMPTY, init).0.volumes, Exec(EMPTY, log).0.volumes;
      forall id | id in t'.records
        ensures t'.records[id].id == id && SaveVolume(t'.records[id]) in log
      {
        if id in t.records && t'.records[id] == t.records[id] {
          assert SaveVolume(t.records[id]) in init;
        } else {
          assert cmd == SaveVolume(t'.records[id]);
        }
      }
    }
  }

  lemma SeparateVolumeCommand(init: seq<Command>, cmd: Command, log: seq<Command>)
    requires SeparatesVolumes(log) && cmd in log && forall c :: c in init ==> c in log
    requires ExactVolumeNames(Exec(EMPTY, init).0.volumes)
    ensures !BreaksVolumeIndex(Exec(EMPTY, init).0, cmd)
  {
    hide Apply, Exec;
    VolumesComeFromLog(init);
    var t := Exec(EMPTY, init).0.volumes;
    match cmd
    case SaveVolume(v) =>
      if v.id in t.records {
        assert SaveVolume(t.records[v.id]) in log;
      }
    case DeleteVolume(id) =>
      if id in t.records && t.records[id].name in t.names {
        var holder := t.names[t.records[id].name];
        assert SaveVolume(t.records[id]) in log && SaveVolume(t.records[holder]) in log;
      }
    case _ =>
  }

  /** A log that does both is orderly: both indexes are exact after every prefix of it. */
  lemma PlainLogIsOrderly(log: seq<Command>)
    requires NamesSandboxes(log) && SeparatesVolumes(log)
    ensures Orderly(log) && ExactThroughout(log)
  {
    hide Exec, ExactNames, ExactVolumeNames, Orderly;
    forall k | 0 <= k <= |log|
      ensures Exact(Exec(EMPTY, log[..k]).0)
    {
      assert forall c :: c in log[..k] ==> c in log;
      NamedSandboxesAreExact(log[..k]);
      SeparateVolumesAreExact(log[..k]);
    }
    ExactThroughoutIff(log);
  }

  // ---------------------------------------------------------------- what goes wrong otherwise

  /** After a save with no name at all, looking the old name up still finds the sandbox, though a
      scan does not. */
  lemma UnnamedSandboxIsStillFound(sb: Sandbox)
    requires sb.id != "" && sb.name != ""
    ensures
      var bare := sb.(name := "", spec := sb.spec.(name := ""));
      var s := Exec(EMPTY, [SaveSandbox(sb), SaveSandbox(bare)]).0;
      && ByName(s.sandboxes, sb.name) == Some(bare)
      && forall id :: id in s.sandboxes.records ==> s.sandboxes.records[id].name != sb.name
  {
    var bare := sb.(name := "", spec := sb.spec.(name := ""));
    ExecStep(EMPTY, [], SaveSandbox(sb));
    ExecStep(EMPTY, [SaveSandbox(sb)], SaveSandbox(bare));
    assert [] + [SaveSandbox(sb)] == [SaveSandbox(sb)];
    assert [SaveSandbox(sb)] + [SaveSandbox(bare)] == [SaveSandbox(sb), SaveSandbox(bare)];
  }

  /** Deleting a default volume that carries a named volume's name frees the name, so a second named
      volume may take it: two named volumes then share it, and lookups no longer find the first. */
  lemma DefaultVolumeFreesName(a: Volume, d: Volume, b: Volume)
    requires a.id != "" && b.id != "" && d.id != "" && a.id != b.id && a.id != d.id && b.id != d.id
    requires a.kind.NamedVolume? && b.kind.NamedVolume? && d.kind.DefaultVolume?
    requires a.name == b.name == d.name != ""
    ensures
      var (s, rs) := Exec(EMPTY, [SaveVolume(a), SaveVolume(d), DeleteVolume(d.id), SaveVolume(b)]);
      && rs == [Ok, Ok, Ok, Ok]
      && a.id in s.volumes.records && s.volumes.records[a.id] == a
      && ByName(s.volumes, a.name) == Some(b)
  {
    ExecStep(EMPTY, [], SaveVolume(a));
    ExecStep(EMPTY, [SaveVolume(a)], SaveVolume(d));
    ExecStep(EMPTY, [SaveVolume(a), SaveVolume(d)], DeleteVolume(d.id));
    ExecStep(EMPTY, [SaveVolume(a), SaveVolume(d), DeleteVolume(d.id)], SaveVolume(b));
    assert [] + [SaveVolume(a)] == [SaveVolume(a)];
    assert [SaveVolume(a)] + [SaveVolume(d)] == [SaveVolume(a), SaveVolume(d)];
    assert [SaveVolume(a), SaveVolume(d)] + [DeleteVolume(d.id)] == [SaveVolume(a), SaveVolume(d), DeleteVolume(d.id)];
    assert [SaveVolume(a), SaveVolume(d), DeleteVolume(d.id)] + [SaveVolume(b)]
        == [SaveVolume(a), SaveVolume(d), DeleteVolume(d.id), SaveVolume(b)];
  }
}
