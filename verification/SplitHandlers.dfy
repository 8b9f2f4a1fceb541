/** The handlers hold no lock between reading a record and saving it.  This module says exactly when
    a save of a record that was read earlier in the run is harmless, and what it does otherwise. */
module SplitHandlers {
  import opened Records
  import opened Control
  import opened Protocol
  import opened ProtocolSafety
  import opened ProtocolRuns
  import Eviction
  import Fsm
  import FsmIndex

  /** A record made from one that was read earlier, as starting, stopping and reporting a status make
      it: it differs at most in the wish, the status and the update time. */
  ghost predicate MadeFrom(read: Sandbox, late: Sandbox) {
    late == read.(desired := late.desired, status := late.status, updatedAt := late.updatedAt)
  }

  /** A late save of a sandbox that is still stored is never refused.  It keeps the assignment if and
      only if the stored generation is still the one that was read; otherwise the generation falls. */
  lemma LateSaveKeepsAssignmentIff(t: Trace, i: nat, j: nat, id: string, late: Sandbox)
    requires IsRun(t) && i <= j <= |t|
    requires id in At(t, i).fsm.sandboxes.records && id in At(t, j).fsm.sandboxes.records
    requires MadeFrom(At(t, i).fsm.sandboxes.records[id], late)
    ensures
      var read, stored := At(t, i).fsm.sandboxes.records[id], At(t, j).fsm.sandboxes.records[id];
      var (fsm, failure) := Save(At(t, j).fsm, Fsm.SaveSandbox(late), Confirmed);
      && failure.None?
      && fsm.sandboxes.records == At(t, j).fsm.sandboxes.records[id := late]
      && (SameAssignment(stored, late) <==> stored.generation == read.generation)
      && (stored.generation != read.generation ==> late.generation < stored.generation)
  {
    hide At, Save, Extends, MessagesOwned, NoneNewer, StampsFollowMoves, Logged, FsmIndex.NamesClaimed;
    RunGoesOn(t, i, j);
    var read, stored := At(t, i).fsm.sandboxes.records[id], At(t, j).fsm.sandboxes.records[id];
    LoggedIsSound(At(t, i).fsm);
    LoggedIsSound(At(t, j).fsm);
    assert NotOlder(read, stored);
    assert Eviction.Filed(read) == read;
    Eviction.SaveUnderStoredName(At(t, j).fsm, late);
  }

  /** A late save of a sandbox that was removed in the meantime brings it back if and only if no other
      sandbox has taken its name. */
  lemma LateSaveRevivesIff(t: Trace, i: nat, j: nat, id: string, late: Sandbox)
    requires IsRun(t) && i <= j <= |t|
    requires id in At(t, i).fsm.sandboxes.records && id !in At(t, j).fsm.sandboxes.records
    requires MadeFrom(At(t, i).fsm.sandboxes.records[id], late)
    ensures
      var read, fsm := At(t, i).fsm.sandboxes.records[id], At(t, j).fsm;
      var after := Save(fsm, Fsm.SaveSandbox(late), Confirmed).0;
      id in after.sandboxes.records <==>
        !(read.name != "" && read.name in fsm.sandboxes.names && fsm.sandboxes.names[read.name] != id)
  {
    hide At, Extends, MessagesOwned, NoneNewer, StampsFollowMoves, Logged, FsmIndex.NamesClaimed;
    RunGoesOn(t, i, j);
    LoggedIsSound(At(t, i).fsm);
    var read := At(t, i).fsm.sandboxes.records[id];
    assert Eviction.Filed(read) == read;
  }

  /** What a start saves that read this record. */
  function Started(read: Sandbox, now: Time): Sandbox {
    read.(desired := DesiredRunning, updatedAt := now)
  }

  /** A start that read the sandbox before a move and saves after it undoes the move, in every run: the
      report of the former owner, rejected before the save, is accepted after it, and every report of
      the owner is rejected. */
  lemma LateStartRevivesFormerOwner(t: Trace, i: nat, j: nat, id: string, status: Status)
    requires IsRun(t) && i <= j <= |t|
    requires id in At(t, i).fsm.sandboxes.records && id in At(t, j).fsm.sandboxes.records
    requires At(t, i).fsm.sandboxes.records[id].nodeID != At(t, j).fsm.sandboxes.records[id].nodeID
    ensures RevivesFormerOwner(At(t, i).fsm.sandboxes.records[id], At(t, j), status)
  {
    hide At, Extends, MessagesOwned, NoneNewer, StampsFollowMoves, Logged, FsmIndex.NamesClaimed, RevivesFormerOwner;
    RunGoesOn(t, i, j);
    var read, w := At(t, i).fsm.sandboxes.records[id], At(t, j);
    LoggedIsSound(At(t, i).fsm);
    LoggedIsSound(w.fsm);
    StoredIsOwned(At(t, i), id);
    assert NotOlder(read, w.fsm.sandboxes.records[id]);
    assert Eviction.Filed(read) == read;
    StaleStartRevives(w, read, status);
  }

  /** Saving a start of the record that was read turns the fence around. */
  ghost predicate RevivesFormerOwner(read: Sandbox, w: World, status: Status) {
    read.id in w.fsm.sandboxes.records
    && var after := Save(w.fsm, Fsm.SaveSandbox(Started(read, w.now)), Confirmed).0;
       var former, generation := Certificate(read.nodeID, false), w.fsm.sandboxes.records[read.id].generation;
    && UpdateSandboxStatus(w.fsm, w.now, former, read.id, read.generation, status, Confirmed).1.Some?
    && UpdateSandboxStatus(after, w.now, former, read.id, read.generation, status, Confirmed).1.None?
    && forall p :: UpdateSandboxStatus(after, w.now, p, read.id, generation, status, Confirmed).1.Some?
  }

  lemma StaleStartRevives(w: World, read: Sandbox, status: Status)
    requires FsmIndex.NamesClaimed(w.fsm.sandboxes)
    requires Eviction.Renames(w.fsm, Started(read, w.now))
    requires var stored := w.fsm.sandboxes.records[read.id];
      stored.generation > read.generation >= 1 && read.nodeID != ""
    ensures RevivesFormerOwner(read, w, status)
  {
    hide FsmIndex.NamesClaimed, Save;
    var saved := Started(read, w.now);
    Eviction.SaveUnderStoredName(w.fsm, saved);
    var after := Save(w.fsm, Fsm.SaveSandbox(saved), Confirmed).0;
    Eviction.SaveUnderStoredName(after, Reported(saved, status, w.now));
  }
}
