/** What one eviction round does to the replicated state: it realises the plan, and it keeps the
    identity of every record. */
module Eviction {
  import opened Records
  import opened Seqs
  import opened Scheduler
  import opened Vacate
  import opened VacatePlan
  import opened Control
  import Fsm
  import FsmIndex
  import Quarantine

  /** The record as the state machine files it. */
  function Filed(sb: Sandbox): Sandbox {
    sb.(name := Fsm.EffectiveName(sb))
  }

  /** A save changes at most the one record, and no node. */
  lemma SaveFrame(fsm: Fsm.State, sb: Sandbox, commit: Commit)
    ensures var fsm' := Save(fsm, Fsm.SaveSandbox(sb), commit).0;
      && fsm'.nodes == fsm.nodes && fsm'.volumes == fsm.volumes
      && (fsm' == fsm || (sb.id != "" && fsm'.sandboxes.records == fsm.sandboxes.records[sb.id := Filed(sb)]))
  {
  }

  // ---------------------------------------------------------------- decisions against the store

  lemma ListingIsUnique<T>(keys: seq<string>, m: map<string, T>, id: T -> string)
    requires IsKeyOrder(keys, m.Keys)
    requires forall k :: k in m ==> id(m[k]) == k
    ensures forall k :: k in keys ==> k in m
    ensures var list := Listing(keys, m);
      && (forall i, j :: 0 <= i < j < |list| ==> id(list[i]) != id(list[j]))
      && (forall x :: x in list <==> id(x) in m && m[id(x)] == x)
  {
    OrderMembers(keys, m.Keys);
    var list := Listing(keys, m);
    forall x | id(x) in m && m[id(x)] == x
      ensures x in list
    {
      assert id(x) in keys;
      var i :| 0 <= i < |keys| && keys[i] == id(x);
      assert list[i] == x;
    }
  }

  /** A decision as the store sees it: about a stored, running sandbox whose node it has to leave for
      the stated reason, and either a failure in place, if it binds the host of a node that is not
      merely draining, or a move to an open, recently heard node that is not held off. */
  ghost predicate FitsStore(fsm: Fsm.State, held: set<string>, now: Time, d: Decision) {
    && d.sandbox.id != ""
    && d.sandbox.id in fsm.sandboxes.records
    && var sb := fsm.sandboxes.records[d.sandbox.id];
    && sb.desired.DesiredRunning? && sb.nodeID != "" && d.source == sb.nodeID
    && Leaves(fsm.nodes, sb.nodeID, now, d.reason)
    && d.failedMount == BindsHost(sb.spec)
    && if d.failedMount then d.reason != ReasonDrain && FailedInPlace(sb, d.sandbox, d.reason, now)
       else
         && MovedAway(sb, d.sandbox, d.reason, now)
         && LiveTarget(fsm.nodes, d.sandbox.nodeID, now, held)
  }

  /** Why sandboxes leave a node, read off the stored nodes: it is not stored, it is silent, or it is
      draining and not silent. */
  ghost predicate Leaves(nodes: map<string, Node>, nodeID: string, now: Time, reason: Reason) {
    match reason
    case ReasonGone => nodeID !in nodes
    case ReasonHeartbeat => nodeID in nodes && Silent(nodes[nodeID], now)
    case ReasonDrain =>
      nodeID in nodes && nodes[nodeID].availability == Drain && !Silent(nodes[nodeID], now)
  }

  ghost predicate LiveTarget(nodes: map<string, Node>, id: string, now: Time, held: set<string>) {
    id in nodes && Open(nodes[id], held) && Fresh(nodes[id], now)
  }

  lemma ChoiceFitsStore(
      fsm: Fsm.State, held: set<string>, now: Time, nodes: seq<Node>, working: seq<Sandbox>, sb: Sandbox, d: Decision)
    requires forall n :: n in nodes <==> n.id in fsm.nodes && fsm.nodes[n.id] == n
    requires FsmIndex.Keyed(fsm)
    requires sb.id in fsm.sandboxes.records && fsm.sandboxes.records[sb.id] == sb
    requires Fits(nodes, working, sb, now, held, Some(d))
    ensures FitsStore(fsm, held, now, d)
  {
    hide IsFirstLeastLoaded, HasLiveSchedulableNode, Silent, Candidate;
    if sb.nodeID in fsm.nodes {
      assert fsm.nodes[sb.nodeID] in nodes;
    }
    if !d.failedMount {
      var n :| n in nodes && n.id == d.sandbox.nodeID && Candidate(n, now, held, true);
      CandidateMeaning(n, now, held, true);
    }
  }

  lemma DecisionsFitStore(
      fsm: Fsm.State, held: set<string>, now: Time, nodeKeys: seq<string>, sandboxKeys: seq<string>)
    requires FsmIndex.Keyed(fsm)
    requires IsKeyOrder(nodeKeys, fsm.nodes.Keys) && IsKeyOrder(sandboxKeys, fsm.sandboxes.records.Keys)
    ensures var out := Decisions(fsm, held, now, nodeKeys, sandboxKeys);
      OnePerSandbox(out) && forall d :: d in out ==> FitsStore(fsm, held, now, d)
  {
    hide Fits, Choices, FitsStore;
    ListingIsUnique(nodeKeys, fsm.nodes, (n: Node) => n.id);
    ListingIsUnique(sandboxKeys, fsm.sandboxes.records, (sb: Sandbox) => sb.id);
    var nodes, sandboxes := Listing(nodeKeys, fsm.nodes), Listing(sandboxKeys, fsm.sandboxes.records);
    OneDecisionEach(nodes, sandboxes, now, held);
    ChoicesFit(nodes, sandboxes, now, held, |sandboxes|);
    var choices := Choices(nodes, sandboxes, now, held, |sandboxes|);
    forall d | d in Decided(choices)
      ensures FitsStore(fsm, held, now, d)
    {
      var i :| 0 <= i < |sandboxes| && FiledAt(sandboxes, choices, d, i);
      assert sandboxes[i] in sandboxes;
      assert Fits(nodes, Working(sandboxes, choices[..i]), sandboxes[i], now, held, choices[i]);
      ChoiceFitsStore(fsm, held, now, nodes, Working(sandboxes, choices[..i]), sandboxes[i], d);
    }
  }

  // ---------------------------------------------------------------- saving the decisions

  /** Every record is as before, or as one of the decisions wants it. */
  ghost predicate SavedSome(before: Fsm.State, after: Fsm.State, decisions: seq<Decision>) {
    && after.nodes == before.nodes
    && after.sandboxes.records.Keys == before.sandboxes.records.Keys
    && forall id :: id in after.sandboxes.records ==>
         || after.sandboxes.records[id] == before.sandboxes.records[id]
         || exists d :: d in decisions && d.sandbox.id == id && after.sandboxes.records[id] == Filed(d.sandbox)
  }

  lemma {:induction false} SaveAllSavesSome(
      fsm: Fsm.State, quarantine: Quarantine.Counts, decisions: seq<Decision>, commits: seq<Commit>)
    requires |commits| == |decisions|
    requires forall d :: d in decisions ==> d.sandbox.id in fsm.sandboxes.records
    ensures SavedSome(fsm, SaveAll(fsm, quarantine, decisions, commits).0, decisions)
  {
    hide Save;
    if |decisions| > 0 {
      var last := |decisions| - 1;
      assert decisions == decisions[..last] + [decisions[last]];
      SaveAllSavesSome(fsm, quarantine, decisions[..last], commits[..last]);
      var mid := SaveAll(fsm, quarantine, decisions[..last], commits[..last]).0;
      SaveFrame(mid, decisions[last].sandbox, commits[last]);
    }
  }

  /** The marks an eviction round makes, in order. */
  function Marks(fsm: Fsm.State, decisions: seq<Decision>, commits: seq<Commit>): (events: seq<Quarantine.Event>)
    requires |commits| == |decisions|
  {
    if |decisions| == 0 then []
    else
      var last := |decisions| - 1;
      var mid := SaveAll(fsm, map[], decisions[..last], commits[..last]).0;
      Marks(fsm, decisions[..last], commits[..last])
      + if Save(mid, Fsm.SaveSandbox(decisions[last].sandbox), commits[last]).1.None?
           && decisions[last].reason.ReasonHeartbeat?
        then [Quarantine.Marked(decisions[last].source)] else []
  }

  /** The quarantine after the round is the quarantine before it with these marks made, and only
      sources of heartbeat decisions are marked. */
  lemma {:induction false} SaveAllMarks(
      fsm: Fsm.State, quarantine: Quarantine.Counts, decisions: seq<Decision>, commits: seq<Commit>)
    requires |commits| == |decisions|
    ensures SaveAll(fsm, quarantine, decisions, commits)
         == (SaveAll(fsm, map[], decisions, commits).0, Quarantine.Run(quarantine, Marks(fsm, decisions, commits)))
    ensures forall e :: e in Marks(fsm, decisions, commits) ==>
      e.Marked? && exists d :: d in decisions && d.reason.ReasonHeartbeat? && d.source == e.id
  {
    hide Save;
    if |decisions| > 0 {
      var last := |decisions| - 1;
      assert decisions == decisions[..last] + [decisions[last]];
      SaveAllMarks(fsm, quarantine, decisions[..last], commits[..last]);
      var before := Marks(fsm, decisions[..last], commits[..last]);
      var mark := Quarantine.Marked(decisions[last].source);
      assert (before + [mark])[..|before|] == before;
      assert before + [] == before;
    }
  }

  // ---------------------------------------------------------------- a fully committed round

  /** The decided records are stored, and the others are as before. */
  ghost predicate SavedAll(before: map<string, Sandbox>, after: map<string, Sandbox>, decisions: seq<Decision>) {
    && after.Keys == before.Keys
    && (forall d :: d in decisions ==> d.sandbox.id in after && after[d.sandbox.id] == d.sandbox)
    && forall id :: id in after && (forall d :: d in decisions ==> d.sandbox.id != id) ==> after[id] == before[id]
  }

  lemma OneMoreSaved(before: map<string, Sandbox>, mid: map<string, Sandbox>, init: seq<Decision>, d: Decision)
    requires SavedAll(before, mid, init)
    requires d.sandbox.id in before && forall e :: e in init ==> e.sandbox.id != d.sandbox.id
    ensures SavedAll(before, mid[d.sandbox.id := d.sandbox], init + [d])
  {
    var after := mid[d.sandbox.id := d.sandbox];
    forall id | id in after && (forall e :: e in init + [d] ==> e.sandbox.id != id)
      ensures after[id] == before[id]
    {
      assert d in init + [d];
      assert forall e :: e in init ==> e in init + [d];
    }
  }

  /** Saving a record under its stored name is never refused. */
  lemma SaveUnderStoredName(fsm: Fsm.State, sb: Sandbox)
    requires FsmIndex.NamesClaimed(fsm.sandboxes)
    requires Renames(fsm, sb)
    ensures var (fsm', failure) := Save(fsm, Fsm.SaveSandbox(sb), Confirmed);
      failure.None? && FsmIndex.NamesClaimed(fsm'.sandboxes)
      && fsm'.sandboxes.records == fsm.sandboxes.records[sb.id := sb]
  {
    FsmIndex.PutKeepsClaims(fsm.sandboxes, sb);
  }

  lemma NoneSaved(records: map<string, Sandbox>)
    ensures SavedAll(records, records, [])
  {
  }

  lemma StillRenames(fsm: Fsm.State, mid: Fsm.State, init: seq<Decision>, sb: Sandbox)
    requires SavedAll(fsm.sandboxes.records, mid.sandboxes.records, init)
    requires Renames(fsm, sb) && forall e :: e in init ==> e.sandbox.id != sb.id
    ensures Renames(mid, sb) && sb.id in fsm.sandboxes.records
  {
  }

  lemma {:induction false} SaveAllSavesAll(
      fsm: Fsm.State, quarantine: Quarantine.Counts, decisions: seq<Decision>, commits: seq<Commit>)
    requires |commits| == |decisions| && forall c :: c in commits ==> c.Confirmed?
    requires FsmIndex.NamesClaimed(fsm.sandboxes) && OnePerSandbox(decisions)
    requires forall d :: d in decisions ==> Renames(fsm, d.sandbox)
    ensures var fsm' := SaveAll(fsm, quarantine, decisions, commits).0;
      && SavedAll(fsm.sandboxes.records, fsm'.sandboxes.records, decisions)
      && FsmIndex.NamesClaimed(fsm'.sandboxes)
  {
    hide Save, SavedAll, Renames, FsmIndex.NamesClaimed;
    if |decisions| == 0 {
      NoneSaved(fsm.sandboxes.records);
    } else {
      var last := |decisions| - 1;
      var init, d := decisions[..last], decisions[last];
      assert decisions == init + [d];
      SaveAllSavesAll(fsm, quarantine, init, commits[..last]);
      var mid := SaveAll(fsm, quarantine, init, commits[..last]).0;
      assert forall e :: e in init ==> e.sandbox.id != d.sandbox.id;
      StillRenames(fsm, mid, init, d.sandbox);
      SaveUnderStoredName(mid, d.sandbox);
      OneMoreSaved(fsm.sandboxes.records, mid.sandboxes.records, init, d);
      assert commits[last] == Confirmed;
    }
  }

  /** A round whose saves are all committed marks every source of a heartbeat decision, from zero. */
  lemma {:induction false} CommittedSourcesAreMarked(
      fsm: Fsm.State, quarantine: Quarantine.Counts, decisions: seq<Decision>, commits: seq<Commit>)
    requires |commits| == |decisions| && forall c :: c in commits ==> c.Confirmed?
    requires FsmIndex.NamesClaimed(fsm.sandboxes) && OnePerSandbox(decisions)
    requires forall d :: d in decisions ==> Renames(fsm, d.sandbox) && d.source != ""
    ensures var q := SaveAll(fsm, quarantine, decisions, commits).1;
      forall d :: d in decisions && d.reason == ReasonHeartbeat ==> d.source in q && q[d.source] == 0
  {
    hide Save, SavedAll, Renames, FsmIndex.NamesClaimed;
    if |decisions| > 0 {
      var last := |decisions| - 1;
      var init, d := decisions[..last], decisions[last];
      assert decisions == init + [d];
      CommittedSourcesAreMarked(fsm, quarantine, init, commits[..last]);
      SaveAllSavesAll(fsm, quarantine, init, commits[..last]);
      var mid := SaveAll(fsm, quarantine, init, commits[..last]).0;
      StillRenames(fsm, mid, init, d.sandbox);
      SaveUnderStoredName(mid, d.sandbox);
      assert commits[last] == Confirmed;
    }
  }

  /** The record replaces a stored one of the same name. */
  ghost predicate Renames(fsm: Fsm.State, sb: Sandbox) {
    && sb.id != "" && sb.id in fsm.sandboxes.records
    && sb.name == fsm.sandboxes.records[sb.id].name && Filed(sb) == sb
  }

  /** Every stored sandbox carries the name it is filed under. */
  ghost predicate AllFiled(fsm: Fsm.State) {
    forall id :: id in fsm.sandboxes.records ==> Filed(fsm.sandboxes.records[id]) == fsm.sandboxes.records[id]
  }

  /** Every state the log can produce files its sandboxes like that. */
  lemma {:induction false} ReachableIsFiled(log: seq<Fsm.Command>)
    ensures AllFiled(Fsm.Exec(Fsm.EMPTY, log).0)
  {
    hide Fsm.Apply;
    if |log| > 0 {
      var mid := Fsm.Exec(Fsm.EMPTY, log[..|log| - 1]).0;
      ReachableIsFiled(log[..|log| - 1]);
      FsmIndex.ApplyByTable(mid, log[|log| - 1]);
    }
  }

  /** An eviction round all of whose saves are committed leaves exactly the planned records in the
      store, in every reachable state and for every order the lists are read in. */
  lemma EvictionRealisesPlan(
      fsm: Fsm.State, quarantine: Quarantine.Counts, now: Time, nodeKeys: seq<string>, sandboxKeys: seq<string>,
      commits: seq<Commit>)
    requires FsmIndex.Keyed(fsm) && FsmIndex.NamesClaimed(fsm.sandboxes) && AllFiled(fsm)
    requires IsKeyOrder(nodeKeys, fsm.nodes.Keys) && IsKeyOrder(sandboxKeys, fsm.sandboxes.records.Keys)
    requires |commits| == |Decisions(fsm, quarantine.Keys, now, nodeKeys, sandboxKeys)|
    requires forall c :: c in commits ==> c.Confirmed?
    ensures forall k :: k in nodeKeys ==> k in fsm.nodes
    ensures forall k :: k in sandboxKeys ==> k in fsm.sandboxes.records
    ensures
      var decisions := Decisions(fsm, quarantine.Keys, now, nodeKeys, sandboxKeys);
      var fsm' := SaveAll(fsm, quarantine, decisions, commits).0;
      && fsm'.nodes == fsm.nodes
      && fsm'.sandboxes.records.Keys == fsm.sandboxes.records.Keys
      && Listing(sandboxKeys, fsm'.sandboxes.records)
           == Planned(Listing(nodeKeys, fsm.nodes), Listing(sandboxKeys, fsm.sandboxes.records), now, quarantine.Keys)
  {
    hide FsmIndex.NamesClaimed, Choices, Fits, FitsStore;
    OrderMembers(nodeKeys, fsm.nodes.Keys);
    OrderMembers(sandboxKeys, fsm.sandboxes.records.Keys);
    var decisions := Decisions(fsm, quarantine.Keys, now, nodeKeys, sandboxKeys);
    var fsm' := SaveAll(fsm, quarantine, decisions, commits).0;
    DecisionsFitStore(fsm, quarantine.Keys, now, nodeKeys, sandboxKeys);
    forall d | d in decisions ensures Renames(fsm, d.sandbox) {
      FittingRenames(fsm, quarantine.Keys, now, d);
    }
    SaveAllSavesSome(fsm, quarantine, decisions, commits);
    SaveAllSavesAll(fsm, quarantine, decisions, commits);
    hide SaveAll;
    PlannedAt(fsm, fsm', quarantine.Keys, now, nodeKeys, sandboxKeys);
  }

  lemma FittingRenames(fsm: Fsm.State, held: set<string>, now: Time, d: Decision)
    requires FitsStore(fsm, held, now, d) && AllFiled(fsm)
    ensures Renames(fsm, d.sandbox)
  {
    hide Silent, LiveTarget;
  }

  lemma PlannedAt(
      fsm: Fsm.State, fsm': Fsm.State, held: set<string>, now: Time, nodeKeys: seq<string>, sandboxKeys: seq<string>)
    requires FsmIndex.Keyed(fsm)
    requires IsKeyOrder(nodeKeys, fsm.nodes.Keys) && IsKeyOrder(sandboxKeys, fsm.sandboxes.records.Keys)
    requires SavedAll(fsm.sandboxes.records, fsm'.sandboxes.records, Decisions(fsm, held, now, nodeKeys, sandboxKeys))
    ensures forall k :: k in nodeKeys ==> k in fsm.nodes
    ensures forall k :: k in sandboxKeys ==> k in fsm.sandboxes.records && k in fsm'.sandboxes.records
    ensures Listing(sandboxKeys, fsm'.sandboxes.records)
         == Planned(Listing(nodeKeys, fsm.nodes), Listing(sandboxKeys, fsm.sandboxes.records), now, held)
  {
    hide Choices, Fits, SavedAll, Working, Decided;
    ListingIsUnique(nodeKeys, fsm.nodes, (n: Node) => n.id);
    ListingIsUnique(sandboxKeys, fsm.sandboxes.records, (sb: Sandbox) => sb.id);
    PlanIsFiled(Listing(nodeKeys, fsm.nodes), fsm.sandboxes.records, fsm'.sandboxes.records, held, now, sandboxKeys);
  }

  lemma PlanIsFiled(
      nodes: seq<Node>, before: map<string, Sandbox>, after: map<string, Sandbox>, held: set<string>, now: Time,
      keys: seq<string>)
    requires UniqueNodes(nodes)
    requires forall k :: k in keys ==> k in before && before[k].id == k
    requires UniqueSandboxes(Listing(keys, before))
    requires SavedAll(before, after, PlanVacate(nodes, Listing(keys, before), now, held))
    ensures after.Keys == before.Keys
    ensures Listing(keys, after) == Planned(nodes, Listing(keys, before), now, held)
  {
    hide Choices, Fits, SavedAll, Decided, UniqueNodes, UniqueSandboxes;
    var sandboxes := Listing(keys, before);
    var choices := Choices(nodes, sandboxes, now, held, |sandboxes|);
    ChoicesFit(nodes, sandboxes, now, held, |sandboxes|);
    KeepsId(nodes, sandboxes, now, held, choices);
    SavedKeys(before, after, Decided(choices));
    forall i | 0 <= i < |keys|
      ensures after[keys[i]] == Working(sandboxes, choices)[i]
    {
      SavedAtChoice(sandboxes, choices, before, after, i);
    }
  }

  lemma SavedKeys(before: map<string, Sandbox>, after: map<string, Sandbox>, decisions: seq<Decision>)
    requires SavedAll(before, after, decisions)
    ensures after.Keys == before.Keys
  {
  }

  lemma SavedAtChoice(
      sandboxes: seq<Sandbox>, choices: seq<Option<Decision>>,
      before: map<string, Sandbox>, after: map<string, Sandbox>, i: nat)
    requires i < |sandboxes| == |choices| && UniqueSandboxes(sandboxes)
    requires forall k :: 0 <= k < |choices| && choices[k].Some? ==> choices[k].value.sandbox.id == sandboxes[k].id
    requires SavedAll(before, after, Decided(choices))
    requires sandboxes[i].id in before && before[sandboxes[i].id] == sandboxes[i]
    ensures sandboxes[i].id in after && after[sandboxes[i].id] == Working(sandboxes, choices)[i]
  {
    DecidedMeaning(choices);
    if choices[i].Some? {
      assert Some(choices[i].value) in choices;
    } else {
      forall d | d in Decided(choices) ensures d.sandbox.id != sandboxes[i].id {
        assert Some(d) in choices;
        var j :| 0 <= j < |choices| && choices[j] == Some(d);
      }
    }
  }
}
