/** What the restart backoff guarantees over whole histories of passes and teardowns. */
module AgentBackoff {
  import opened Records
  import opened Agent

  /** One round as it concerns one sandbox: a pass in which it is assigned, with the answers; a pass in
      which it is not; a pass whose assignments could not be listed; a teardown. */
  datatype Turn = Assigned(want: Sandbox, answers: Answers) | Unassigned | Unlisted | TornDown

  function Next(slot: Slot, turn: Turn): Slot {
    match turn
    case Assigned(want, answers) => Reconciled(slot, want, answers).slot
    case Unassigned => Dropped(slot)
    case Unlisted => slot
    case TornDown => EMPTY_SLOT
  }

  /** The slot after a history of rounds. */
  function After(turns: seq<Turn>): Slot {
    if |turns| == 0 then EMPTY_SLOT else Next(After(turns[..|turns| - 1]), turns[|turns| - 1])
  }

  // ---------------------------------------------------------------- what is observed in a pass

  predicate ShouldRun(turn: Turn) {
    turn.Assigned? && turn.want.desired.DesiredRunning?
  }

  /** The pass tries to create the sandbox. */
  predicate Attempts(slot: Slot, turn: Turn) {
    turn.Assigned?
    && CreateOrConnect(turn.want.id, turn.answers.now) in Reconciled(slot, turn.want, turn.answers).actions
  }

  predicate Succeeds(slot: Slot, turn: Turn) {
    Attempts(slot, turn) && turn.answers.created
  }

  /** The pass sees a failure: creating failed, or a sandbox that should run does not. */
  predicate Fails(slot: Slot, turn: Turn) {
    && ShouldRun(turn)
    && if slot.tracked || turn.answers.found
       then turn.answers.inspected != Some(PhaseRunning)
       else Attempts(slot, turn) && !turn.answers.created
  }

  /** The round ends the wish to run the sandbox, or the assignment of a tracked one, or everything. */
  predicate Resets(slot: Slot, turn: Turn) {
    match turn
    case Assigned(want, _) => want.desired.DesiredStopped? || want.desired.DesiredRemoved?
    case Unassigned => slot.tracked
    case Unlisted => false
    case TornDown => true
  }

  /** The failures since the last success or reset. */
  function Failures(turns: seq<Turn>): nat {
    if |turns| == 0 then 0
    else
      var init, turn := turns[..|turns| - 1], turns[|turns| - 1];
      if Fails(After(init), turn) then Failures(init) + 1
      else if Succeeds(After(init), turn) || Resets(After(init), turn) then 0
      else Failures(init)
  }

  /** When the last of them was noted. */
  function LastFailure(turns: seq<Turn>): Time {
    if |turns| == 0 then 0
    else
      var init, turn := turns[..|turns| - 1], turns[|turns| - 1];
      if Fails(After(init), turn) then turn.answers.later else LastFailure(init)
  }

  /** What the last of them was. */
  function LastReason(turns: seq<Turn>): string {
    if |turns| == 0 then ""
    else
      var init, turn := turns[..|turns| - 1], turns[|turns| - 1];
      if !Fails(After(init), turn) then LastReason(init)
      else if !After(init).tracked && !turn.answers.found then turn.answers.error
      else if turn.answers.inspected == None then "inspect: " + turn.answers.error
      else "sandbox not running"
  }

  /** The clock does not go back, within a pass or between passes. */
  ghost predicate Monotone(turns: seq<Turn>) {
    && (forall i :: 0 <= i < |turns| && turns[i].Assigned? ==> turns[i].answers.now <= turns[i].answers.later)
    && (forall i, j :: 0 <= i < j < |turns| && turns[i].Assigned? && turns[j].Assigned? ==>
          turns[i].answers.later <= turns[j].answers.now)
  }

  // ---------------------------------------------------------------- the meaning of a slot

  /** The recorded backoff is what the history says: it counts the failures since the last success, and
      bars attempts until the delay for them has passed since the last one. */
  ghost predicate Means(b: Option<Backoff>, failures: nat, lastFailure: Time) {
    if failures == 0 then b.None?
    else b.Some? && b.value.attempts == failures && b.value.notBefore == lastFailure + RestartDelay(failures - 1)
  }

  lemma NextMeans(slot: Slot, turn: Turn, failures: nat, last: Time)
    requires Means(slot.backoff, failures, last)
    ensures
      if Fails(slot, turn) then Means(Next(slot, turn).backoff, failures + 1, turn.answers.later)
      else if Succeeds(slot, turn) || Resets(slot, turn) then Means(Next(slot, turn).backoff, 0, last)
      else Means(Next(slot, turn).backoff, failures, last)
  {
    hide RestartDelay;
  }

  lemma {:induction false} BackoffIsHistory(turns: seq<Turn>)
    ensures Means(After(turns).backoff, Failures(turns), LastFailure(turns))
  {
    hide Means, Next, Fails, Succeeds, Resets;
    if |turns| == 0 {
      NothingMeans();
    } else {
      var init, turn := turns[..|turns| - 1], turns[|turns| - 1];
      BackoffIsHistory(init);
      NextMeans(After(init), turn, Failures(init), LastFailure(init));
      NoFailuresMean(After(turns).backoff, LastFailure(init), LastFailure(turns));
    }
  }

  lemma NothingMeans()
    ensures Means(EMPTY_SLOT.backoff, 0, 0)
  {
  }

  lemma NoFailuresMean(b: Option<Backoff>, last: Time, last': Time)
    ensures Means(b, 0, last) ==> Means(b, 0, last')
  {
  }

  lemma NextReason(slot: Slot, turn: Turn)
    ensures var b := Next(slot, turn).backoff;
      b.Some? ==>
        if !Fails(slot, turn) then slot.backoff.Some? && b.value.reason == slot.backoff.value.reason
        else if !slot.tracked && !turn.answers.found then b.value.reason == turn.answers.error
        else if turn.answers.inspected == None then b.value.reason == "inspect: " + turn.answers.error
        else b.value.reason == "sandbox not running"
  {
    hide RestartDelay;
  }

  /** The recorded reason is that of the last failure. */
  lemma {:induction false} ReasonIsHistory(turns: seq<Turn>)
    ensures var b := After(turns).backoff;
      b.Some? ==> b.value.reason == LastReason(turns)
  {
    hide Next, Fails;
    if |turns| > 0 {
      ReasonIsHistory(turns[..|turns| - 1]);
      NextReason(After(turns[..|turns| - 1]), turns[|turns| - 1]);
    }
  }

  /** A wait is never more than sixty seconds. */
  lemma {:induction false} WaitIsCapped(turns: seq<Turn>)
    ensures var b := After(turns).backoff;
      b.Some? ==> b.value.notBefore - LastFailure(turns) <= 60 * SECOND
  {
    hide Fails, Next;
    BackoffIsHistory(turns);
    if Failures(turns) > 0 {
      DelayMonotone(Failures(turns) - 1, Failures(turns) - 1);
    }
  }

  /** A pass tries to create the sandbox exactly when it should run, is not there, and the delay for
      the failures so far has passed since the last of them. */
  lemma AttemptsIff(turns: seq<Turn>, turn: Turn)
    ensures Attempts(After(turns), turn) <==>
      && ShouldRun(turn)
      && !After(turns).tracked && !turn.answers.found
      && (Failures(turns) > 0 ==> turn.answers.now >= LastFailure(turns) + RestartDelay(Failures(turns) - 1))
  {
    hide Fails, Next, RestartDelay;
    BackoffIsHistory(turns);
  }

  // ---------------------------------------------------------------- the guarantee

  /** No success and no reset between two points of the history. */
  ghost predicate Unbroken(turns: seq<Turn>, i: nat, j: nat)
    requires i <= j <= |turns|
  {
    forall m :: i <= m < j ==> !Succeeds(After(turns[..m]), turns[m]) && !Resets(After(turns[..m]), turns[m])
  }

  lemma FailuresAreAssigned(slot: Slot, turn: Turn)
    ensures Fails(slot, turn) ==> turn.Assigned?
  {
  }

  lemma {:induction false} FailuresGrow(turns: seq<Turn>, i: nat, m: nat)
    requires i < m <= |turns| && Monotone(turns)
    requires Fails(After(turns[..i]), turns[i])
    requires Unbroken(turns, i + 1, m)
    ensures Failures(turns[..m]) >= Failures(turns[..i + 1]) >= 1
    ensures LastFailure(turns[..m]) >= turns[i].answers.later
  {
    hide Fails, Succeeds, Resets, After;
    assert turns[..m][..m - 1] == turns[..m - 1];
    assert turns[..i + 1][..i] == turns[..i];
    FailuresAreAssigned(After(turns[..i]), turns[i]);
    FailuresAreAssigned(After(turns[..m - 1]), turns[m - 1]);
    if i + 1 < m {
      FailuresGrow(turns, i, m - 1);
    }
  }

  /** The guarantee.  Say pass `i` sees the k-th failure since the last success or reset.  Then, until
      the next success or reset, no pass tries to create the sandbox before 5, 10, 20, 40 or, from the
      fifth failure on, 60 seconds have passed since that failure. */
  lemma BackoffIsRespected(turns: seq<Turn>, i: nat, j: nat)
    requires i < j < |turns| && Monotone(turns)
    requires Fails(After(turns[..i]), turns[i])
    requires Unbroken(turns, i + 1, j)
    requires Attempts(After(turns[..j]), turns[j])
    ensures var k := Failures(turns[..i + 1]);
      && k >= 1
      && turns[j].answers.now - turns[i].answers.later
           >= (if k == 1 then 5 else if k == 2 then 10 else if k == 3 then 20 else if k == 4 then 40 else 60) * SECOND
  {
    hide Fails, Attempts, After, Failures, LastFailure;
    FailuresGrow(turns, i, j);
    AttemptsIff(turns[..j], turns[j]);
    DelayMonotone(Failures(turns[..i + 1]) - 1, Failures(turns[..j]) - 1);
    DelayTable(Failures(turns[..i + 1]) - 1);
  }

  // ---------------------------------------------------------------- the agent follows the history

  /** One round of the agent: a pass, with the listed assignments if they could be listed, or a
      teardown. */
  datatype Round = Pass(listed: Option<seq<Sandbox>>, answers: string -> Answers) | Teardown

  /** What a round means for one sandbox. */
  function TurnOf(round: Round, id: string): Turn {
    match round
    case Teardown => TornDown
    case Pass(None, _) => Unlisted
    case Pass(Some(list), answers) =>
      var want := Agent.Wanted(list);
      if id in want then Assigned(want[id], answers(id)) else Unassigned
  }

  function TurnsOf(rounds: seq<Round>, id: string): (turns: seq<Turn>)
    ensures |turns| == |rounds|
  {
    seq(|rounds|, i requires 0 <= i < |rounds| => TurnOf(rounds[i], id))
  }

  lemma OneMoreTurn(rounds: seq<Round>, i: nat, id: string)
    requires i < |rounds|
    ensures After(TurnsOf(rounds[..i + 1], id)) == Next(After(TurnsOf(rounds[..i], id)), TurnOf(rounds[i], id))
  {
    assert TurnsOf(rounds[..i + 1], id)[..i] == TurnsOf(rounds[..i], id);
  }

  /** What is done for one sandbox in a round, if anything. */
  function Acts(slot: Slot, turn: Turn, id: string): Option<seq<Action>> {
    match turn
    case Assigned(want, answers) => Some(Reconciled(slot, want, answers).actions)
    case Unlisted => None
    case _ => if slot.tracked then Some(Destroyed(id)) else None
  }

  function ActionsFor(actions: map<string, seq<Action>>, id: string): Option<seq<Action>> {
    if id in actions then Some(actions[id]) else None
  }

  /** What the agent may track after a round. */
  ghost predicate Allowed(round: Round, id: string) {
    round.Pass? && round.listed.Some? ==> exists sb :: sb in round.listed.value && sb.id == id
  }

  /** Each sandbox takes its own turn. */
  method MakeRound(agent: Reconciler, round: Round) returns (actions: map<string, seq<Action>>)
    modifies agent
    ensures forall id :: agent.SlotOf(id) == Next(old(agent.SlotOf(id)), TurnOf(round, id))
    ensures forall id :: ActionsFor(actions, id) == Acts(old(agent.SlotOf(id)), TurnOf(round, id), id)
    ensures forall id :: id in agent.local ==> Allowed(round, id)
  {
    hide Reconciled, Dropped, Destroyed;
    match round {
      case Pass(listed, answers) =>
        actions := agent.Reconcile(listed, answers);
      case Teardown =>
        actions := agent.TeardownLocal();
    }
  }

  /** A new agent that makes these rounds holds, for every sandbox, the slot of that sandbox's own
      history, and does in each round what that history and the round ask for: no sandbox disturbs
      another.  What it tracks after a pass is assigned in it. */
  method MakeRounds(rounds: seq<Round>) returns (agent: Reconciler, done: seq<map<string, seq<Action>>>)
    ensures forall id :: agent.SlotOf(id) == After(TurnsOf(rounds, id))
    ensures |done| == |rounds|
    ensures forall i, id :: 0 <= i < |rounds| ==>
      ActionsFor(done[i], id) == Acts(After(TurnsOf(rounds[..i], id)), TurnOf(rounds[i], id), id)
    ensures |rounds| > 0 ==> forall id :: id in agent.local ==> Allowed(rounds[|rounds| - 1], id)
  {
    hide Next, TurnOf, Allowed, Acts, After, ActionsFor;
    agent := new Reconciler();
    done := [];
    StartsEmpty(rounds);
    for i := 0 to |rounds|
      invariant fresh(agent)
      invariant forall id :: agent.SlotOf(id) == After(TurnsOf(rounds[..i], id))
      invariant |done| == i
      invariant forall k, id :: 0 <= k < i ==>
        ActionsFor(done[k], id) == Acts(After(TurnsOf(rounds[..k], id)), TurnOf(rounds[k], id), id)
      invariant i > 0 ==> forall id :: id in agent.local ==> Allowed(rounds[i - 1], id)
    {
      var actions := MakeRound(agent, rounds[i]);
      done := done + [actions];
      forall id ensures agent.SlotOf(id) == After(TurnsOf(rounds[..i + 1], id)) {
        OneMoreTurn(rounds, i, id);
      }
    }
    assert rounds[..|rounds|] == rounds;
  }

  lemma StartsEmpty(rounds: seq<Round>)
    ensures forall id :: After(TurnsOf(rounds[..0], id)) == EMPTY_SLOT
  {
  }
}
