/** A concrete run: a sandbox is created on one node, moves to another when the first falls silent, and a
    start that read it before the move and saves after it turns the fence around. */
module LateStart {
  import opened Records
  import opened Seqs
  import opened Control
  import opened Protocol
  import opened ProtocolSafety
  import opened SplitHandlers
  import Scheduler
  import Vacate
  import VacatePlan
  import Eviction
  import EvictionRounds
  import Fsm

  const A := "a"
  const B := "b"
  const S := "s"

  function Worker(id: string): Node {
    Node(id, Role.Worker, Accepted, Active, map[], "", None, 0)
  }

  const REQUEST := CreateRequest(S, Spec(S, OciImage, []), true, map[], true)

  const RUNNING := Status(PhaseRunning, "", "", None, None, None)

  /** The sandbox as it is created on node `a`. */
  function Created(): Sandbox {
    NewSandbox(REQUEST, S, A, 0)
  }

  /** The report that node `a` sends from its first assignment. */
  function LateReport(): Report {
    Report(A, S, 1, RUNNING)
  }

  function BeatOf(id: string, keys: seq<string>): Step {
    Step.Beat(Certificate(id, false), Control.Beat(id, "", 0), keys, Confirmed)
  }

  /** Node `a` joins and beats; `s` is created there; `a` hears of it and reports; a minute later `b` has
      joined and beaten, `a` has not, and an eviction round runs. */
  function Schedule(): seq<Step> {
    [ UpdateNode(Worker(A), Confirmed),
      BeatOf(A, []),
      CreateSandbox(REQUEST, None, [A], [], Confirmed),
      BeatOf(A, [S]),
      ReceiveReply(Reply(A, [Created()])),
      Fetch(A),
      Send(LateReport()),
      Tick(61 * SECOND),
      UpdateNode(Worker(B), Confirmed),
      BeatOf(B, [S]),
      Evict([A, B], [S], n => Confirmed) ]
  }

  // ---------------------------------------------------------------- the steps

  /** The store of the run: these nodes, and these sandboxes under these names. */
  function StoreOf(nodes: map<string, Node>, records: map<string, Sandbox>, names: map<string, string>): Fsm.State {
    Fsm.EMPTY.(nodes := nodes, sandboxes := Fsm.Table(records, names))
  }

  lemma Joining(w: World, id: string)
    requires id != "" && id !in w.fsm.nodes
    ensures Act(w, UpdateNode(Worker(id), Confirmed)) == w.(fsm := w.fsm.(nodes := w.fsm.nodes[id := Worker(id)]))
  {
  }

  lemma Beating(w: World, id: string, keys: seq<string>)
    requires id != "" && id in w.fsm.nodes && w.fsm.nodes[id].id == id && SandboxOrder(w, keys)
    requires w.quarantine == map[]
    ensures Act(w, BeatOf(id, keys)) ==
      w.(fsm := w.fsm.(nodes := w.fsm.nodes[id := Beaten(w.fsm.nodes[id], Control.Beat(id, "", 0), w.now)]),
         replies := w.replies + {Reply(id, StoredList(w, keys, id))})
  {
    hide Fsm.SandboxesByNode;
    OrderMembers(keys, w.fsm.sandboxes.records.Keys);
  }

  lemma RequestIsValid()
    ensures ValidSpec(REQUEST.spec) && REQUEST.spec.NamedVolumeNames() == []
  {
    assert TrimLeft(S) == S;
    assert TrimRight(S) == S;
  }

  lemma ChosenIs(n: Node, now: Time)
    requires Scheduler.Candidate(n, now, {}, true)
    ensures Scheduler.SelectNode([n], [], now, {}) == n.id
  {
    hide Scheduler.SelectNode;
    Scheduler.SelectNodeMeaning([n], [], now, {});
    assert n in [n];
  }

  lemma Creating(w: World, n: Node)
    requires n.id == A && w.fsm == StoreOf(map[A := n], map[], map[])
    requires w.now == 0 && w.quarantine == map[] && S !in w.used
    requires Scheduler.Candidate(n, 0, {}, true)
    ensures Act(w, CreateSandbox(REQUEST, None, [A], [], Confirmed)) ==
      w.(used := w.used + {S}, fsm := StoreOf(map[A := n], map[S := Created()], map[S := S]))
  {
    hide Scheduler.SelectNode, ValidSpec, NamedVolumesOf, ActOffStore, ActBeat;
    RequestIsValid();
    ChosenIs(n, 0);
    assert Elems([A]) == {A} == w.fsm.nodes.Keys;
    OrderMembers([A], w.fsm.nodes.Keys);
    OrderMembers([], w.fsm.sandboxes.records.Keys);
    assert Listing([A], w.fsm.nodes) == [n];
    assert Listing([], w.fsm.sandboxes.records) == [];
    assert w.quarantine.Keys == {};
  }

  /** A fully committed round moves the sandbox off a silent node. */
  lemma Evicting(w: World, a: Node, b: Node)
    requires Logged(w.fsm)
    requires w.fsm == StoreOf(map[A := a, B := b], map[S := Created()], map[S := S]) && a.id == A && b.id == B
    requires w.quarantine == map[]
    requires Scheduler.Silent(a, w.now) && Scheduler.Candidate(b, w.now, {}, true)
    ensures var after := Act(w, Evict([A, B], [S], n => Confirmed)).fsm;
      S in after.sandboxes.records && after.sandboxes.records[S].nodeID != A
  {
    hide SaveAll, Decisions, Act, Logged, Vacate.Planned, EvictionRounds.Stranded;
    var step := Evict([A, B], [S], n => Confirmed);
    assert Elems([A, B]) == {A, B} == w.fsm.nodes.Keys;
    assert Elems([S]) == {S} == w.fsm.sandboxes.records.Keys;
    assert w.quarantine.Keys == {};
    LoggedIsSound(w.fsm);
    EvictionRounds.EvictionActs(w, step);
    var commits := EvictionRounds.CommitsOf(w, step);
    Eviction.EvictionRealisesPlan(w.fsm, w.quarantine, w.now, [A, B], [S], commits);
    var records := Act(w, step).fsm.sandboxes.records;
    assert Eviction.LiveTarget(w.fsm.nodes, B, w.now, {});
    EvictionRounds.PlannedRoundStrandsNobody(
      w.fsm.nodes, w.fsm.sandboxes.records, records, w.now, {}, [A, B], [S], S);
    assert Listing([A, B], w.fsm.nodes) == [a, b];
    assert Listing([S], w.fsm.sandboxes.records) == [Created()];
    assert Listing([S], records) == [records[S]];
    VacatePlan.PlanFrame([a, b], [Created()], w.now, {}, 0);
    IfItStayed(w.fsm.nodes, w.now, records[S]);
  }

  lemma IfItStayed(nodes: map<string, Node>, now: Time, sb: Sandbox)
    requires A in nodes && Scheduler.Silent(nodes[A], now)
    requires sb.desired == DesiredRunning && sb.spec == REQUEST.spec
    ensures !sb.spec.HasHostMounts() && (sb.nodeID == A ==> EvictionRounds.Stranded(nodes, now, sb))
  {
  }

  // ---------------------------------------------------------------- the run

  ghost predicate Follows(t: Trace) {
    IsRun(t) && |t| == 11 && forall i :: 0 <= i < 11 ==> t[i].step == Schedule()[i]
  }

  /** A step changes what `Act` says, beside the history. */
  lemma StepActs(t: Trace, i: nat)
    requires Follows(t) && i < 11
    ensures var w', after := At(t, i + 1), Act(At(t, i), Schedule()[i]);
      w' == after.(owner := w'.owner, moved := w'.moved)
  {
    hide Act, Schedule, ChangesNode, Owners, At;
    RunStep(t, i);
  }

  /** The record of a worker that has beaten. */
  function Live(id: string, now: Time): Node {
    Beaten(Worker(id), Control.Beat(id, "", 0), now)
  }

  /** The sandbox is stored as it was created. */
  ghost predicate Holds(w: World, nodes: map<string, Node>, now: Time) {
    w.fsm == StoreOf(nodes, map[S := Created()], map[S := S]) && w.now == now && w.quarantine == map[]
  }

  lemma UpToCreate(t: Trace)
    requires Follows(t)
    ensures Holds(At(t, 3), map[A := Live(A, 0)], 0)
  {
    hide Act, Fsm.Apply, Logged;
    StepActs(t, 0);
    StepActs(t, 1);
    StepActs(t, 2);
    Joining(START, A);
    NoKeys();
    Beating(At(t, 1), A, []);
    Creating(At(t, 2), Live(A, 0));
  }

  lemma Listed(w: World, nodes: map<string, Node>, now: Time)
    requires Holds(w, nodes, now)
    ensures SandboxOrder(w, [S]) && StoredList(w, [S], A) == [Created()]
  {
    assert Elems([S]) == {S};
    OrderMembers([S], w.fsm.sandboxes.records.Keys);
    assert [S][..0] == [];
    assert Fsm.SandboxesByNode(w.fsm.sandboxes.records, [], A) == [];
  }

  /** The second heartbeat is answered with the new sandbox. */
  lemma BeatingAgain(w: World)
    requires Holds(w, map[A := Live(A, 0)], 0)
    ensures Act(w, BeatOf(A, [S])) == w.(replies := w.replies + {Reply(A, [Created()])})
  {
    hide Act, Created, StoredList;
    Listed(w, map[A := Live(A, 0)], 0);
    Beating(w, A, [S]);
    assert w.fsm.nodes[A := Live(A, 0)] == w.fsm.nodes;
  }

  lemma Hearing(w: World)
    requires Reply(A, [Created()]) in w.replies
    ensures Act(w, ReceiveReply(Reply(A, [Created()]))) == w.(cached := w.cached[A := [Created()]])
  {
  }

  lemma Fetching(w: World)
    requires A in w.cached && w.cached[A] == [Created()]
    ensures Act(w, Fetch(A)) == w.(working := w.working[A := [Created()]])
  {
  }

  lemma Sending(w: World)
    requires A in w.working && w.working[A] == [Created()]
    ensures Act(w, Send(LateReport())) == w.(reports := w.reports + {LateReport()})
  {
    assert Created() in w.working[A];
  }

  /** Node `a` hears of the sandbox, works on it and sends its report. */
  lemma UpToReport(t: Trace)
    requires Follows(t)
    ensures Holds(At(t, 7), map[A := Live(A, 0)], 0) && LateReport() in At(t, 7).reports
  {
    hide Act, Created, StoreOf, Live, Logged;
    UpToCreate(t);
    StepActs(t, 3);
    BeatingAgain(At(t, 3));
    StepActs(t, 4);
    Hearing(At(t, 4));
    StepActs(t, 5);
    Fetching(At(t, 5));
    StepActs(t, 6);
    Sending(At(t, 6));
  }

  /** A minute later node `b` has joined and beaten, and node `a` is silent. */
  lemma UpToEvict(t: Trace)
    requires Follows(t)
    ensures Holds(At(t, 10), map[A := Live(A, 0), B := Live(B, 61 * SECOND)], 61 * SECOND)
    ensures LateReport() in At(t, 10).reports
  {
    hide Act, Created, Logged;
    UpToReport(t);
    StepActs(t, 7);
    Waiting(At(t, 7));
    StepActs(t, 8);
    Joining(At(t, 8), B);
    StepActs(t, 9);
    Listed(At(t, 9), map[A := Live(A, 0), B := Worker(B)], 61 * SECOND);
    Beating(At(t, 9), B, [S]);
  }

  lemma Waiting(w: World)
    ensures Act(w, Tick(61 * SECOND)) == w.(now := w.now + 61 * SECOND)
  {
  }

  /** The round at the end of the run moves the sandbox. */
  lemma MovesAtTheEnd(t: Trace)
    requires Follows(t)
    ensures S in At(t, 10).fsm.sandboxes.records && At(t, 10).fsm.sandboxes.records[S] == Created()
    ensures S in At(t, 11).fsm.sandboxes.records && At(t, 11).fsm.sandboxes.records[S].nodeID != A
  {
    hide Act, Logged, Safe;
    UpToEvict(t);
    RunIsSafe(t, 10);
    SafeStore(At(t, 10));
    StepActs(t, 10);
    Evicting(At(t, 10), Live(A, 0), Live(B, 61 * SECOND));
  }

  /** Such a run exists: its last step moves the sandbox while the first owner's report is under way,
      and a start that read the sandbox before the move and saves after it makes the leader accept that
      report, which it rejected, and reject every report of the new owner. */
  lemma LateStartHappens() returns (t: Trace)
    ensures IsRun(t) && |t| == 11
    ensures S in At(t, 3).fsm.sandboxes.records && LateReport() in At(t, 11).reports
    ensures ChangesNode(At(t, 10).fsm, At(t, 11).fsm, S)
    ensures RevivesFormerOwner(At(t, 3).fsm.sandboxes.records[S], At(t, 11), RUNNING)
    ensures var read := At(t, 3).fsm.sandboxes.records[S];
      LateReport() == Report(read.nodeID, S, read.generation, RUNNING)
  {
    hide Act, RevivesFormerOwner;
    t := EveryScheduleRuns(Schedule());
    UpToCreate(t);
    UpToEvict(t);
    MovesAtTheEnd(t);
    StepActs(t, 10);
    EvictionKeepsReports(At(t, 10));
    LateStartRevivesFormerOwner(t, 3, 11, S, RUNNING);
  }

  lemma EvictionKeepsReports(w: World)
    ensures Act(w, Schedule()[10]).reports == w.reports
  {
    hide ActOnStore;
  }
}
