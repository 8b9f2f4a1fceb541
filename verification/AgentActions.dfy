/** What the agent does to the machines and what it reports, in every pass and in every round of every
    history. */
module AgentActions {
  import opened Records
  import opened Agent
  import opened AgentBackoff

  /** `x` is done, and `y` after it. */
  ghost predicate Before(actions: seq<Action>, x: Action, y: Action) {
    exists i, j :: 0 <= i < j < |actions| && actions[i] == x && actions[j] == y
  }

  /** A sandbox that is to be stopped or removed.  If the agent or the driver knows its machine, the
      machine is stopped before the sandbox is reported stopped, and otherwise only the report is made.
      The machine is removed, and no longer tracked, exactly if the sandbox is to be removed.  Nothing is
      created, and the backoff is forgotten. */
  lemma StoppingMeaning(slot: Slot, sb: Sandbox, a: Answers)
    requires sb.desired in {DesiredStopped, DesiredRemoved}
    ensures
      var (p, there) := (Reconciled(slot, sb, a), slot.tracked || a.found);
      var stopped := Report(sb.id, sb.generation, PhaseStopped);
      && (if there then Before(p.actions, StopVM(sb.id), stopped) else StopVM(sb.id) !in p.actions)
      && stopped in p.actions
      && (RemoveVM(sb.id) in p.actions <==> there && sb.desired == DesiredRemoved)
      && (RemoveVM(sb.id) in p.actions ==> Before(p.actions, StopVM(sb.id), RemoveVM(sb.id)))
      && (p.slot.tracked <==> there && sb.desired == DesiredStopped)
      && p.slot.backoff == None
      && forall at :: CreateOrConnect(sb.id, at) !in p.actions
  {
    var p := Reconciled(slot, sb, a);
    var stopped := Report(sb.id, sb.generation, PhaseStopped);
    if slot.tracked || a.found {
      assert p.actions[0] == StopVM(sb.id);
      if sb.desired == DesiredRemoved {
        assert p.actions[1] == RemoveVM(sb.id) && p.actions[2] == stopped;
      } else {
        assert p.actions[1] == stopped;
      }
    } else {
      assert p.actions[0] == stopped;
    }
  }

  /** A sandbox that should run and whose machine the agent or the driver knows.  It is left alone and
      reported running if the driver says that it runs.  If the driver says otherwise, that is reported,
      and the machine is stopped, removed and no longer tracked; if the driver cannot say, it is no
      longer tracked, but neither stopped nor removed.  Nothing is created. */
  lemma InspectingMeaning(slot: Slot, sb: Sandbox, a: Answers)
    requires sb.desired == DesiredRunning && (slot.tracked || a.found)
    ensures
      var p := Reconciled(slot, sb, a);
      && (forall at :: CreateOrConnect(sb.id, at) !in p.actions)
      && (p.slot.tracked <==> a.inspected == Some(PhaseRunning))
      && (a.inspected == None ==> p.actions == [Report(sb.id, sb.generation, PhaseFailed)])
      && (a.inspected.Some? ==> Report(sb.id, sb.generation, a.inspected.value) in p.actions)
      && (a.inspected == Some(PhaseRunning) ==> p.slot.backoff == slot.backoff)
      && (StopVM(sb.id) in p.actions <==> a.inspected.Some? && a.inspected != Some(PhaseRunning))
      && (RemoveVM(sb.id) in p.actions <==> StopVM(sb.id) in p.actions)
      && (StopVM(sb.id) in p.actions ==> Before(p.actions, StopVM(sb.id), RemoveVM(sb.id)))
  {
    var p := Reconciled(slot, sb, a);
    if a.inspected.Some? {
      assert p.actions[0] == Report(sb.id, sb.generation, a.inspected.value);
      if a.inspected != Some(PhaseRunning) {
        assert p.actions[1] == StopVM(sb.id) && p.actions[2] == RemoveVM(sb.id);
      }
    }
  }

  /** A sandbox that should run and whose machine nobody knows.  It is reported starting; it is created
      exactly if no backoff bars it, and tracked exactly if that succeeds, which clears the backoff and
      is reported.  No machine is stopped or removed. */
  lemma CreatingMeaning(slot: Slot, sb: Sandbox, a: Answers)
    requires sb.desired == DesiredRunning && !slot.tracked && !a.found
    ensures
      var p := Reconciled(slot, sb, a);
      var barred := slot.backoff.Some? && a.now < slot.backoff.value.notBefore;
      && Report(sb.id, sb.generation, PhaseStarting) in p.actions
      && (CreateOrConnect(sb.id, a.now) in p.actions <==> !barred)
      && (p.slot.tracked <==> !barred && a.created)
      && (barred ==> p.slot.backoff == slot.backoff)
      && (p.slot.tracked ==>
            && p.slot.backoff == None
            && Before(p.actions, CreateOrConnect(sb.id, a.now), Report(sb.id, sb.generation, PhaseRunning)))
      && StopVM(sb.id) !in p.actions && RemoveVM(sb.id) !in p.actions
  {
    var p := Reconciled(slot, sb, a);
    assert p.actions[0] == Report(sb.id, sb.generation, PhaseStarting);
    if slot.backoff.None? || a.now >= slot.backoff.value.notBefore {
      assert p.actions[1] == CreateOrConnect(sb.id, a.now);
      if a.created {
        assert p.actions[2] == Report(sb.id, sb.generation, PhaseRunning);
      }
    }
  }

  /** With any other wish nothing is done, and only what the driver knows is newly tracked. */
  lemma IgnoringMeaning(slot: Slot, sb: Sandbox, a: Answers)
    requires sb.desired.DesiredOther?
    ensures Reconciled(slot, sb, a) == Agent.Pass.Pass(Slot(slot.tracked || a.found, slot.backoff), [], false)
  {
  }

  /** Reports are true: a sandbox is reported running only if the driver said so in this pass, or the pass
      created it; and failed only if the driver said so, or could not inspect or create it, or the last
      report was not delivered. */
  lemma ReportsAreTrue(slot: Slot, sb: Sandbox, a: Answers)
    ensures
      var (p, there) := (Reconciled(slot, sb, a), slot.tracked || a.found);
      && (Report(sb.id, sb.generation, PhaseRunning) in p.actions ==>
            && sb.desired == DesiredRunning
            && if there then a.inspected == Some(PhaseRunning)
               else CreateOrConnect(sb.id, a.now) in p.actions && a.created)
      && (Report(sb.id, sb.generation, PhaseFailed) in p.actions ==>
            || !a.reported
            || (sb.desired == DesiredRunning && there && a.inspected in {None, Some(PhaseFailed)})
            || (sb.desired == DesiredRunning && !there && CreateOrConnect(sb.id, a.now) in p.actions && !a.created))
      && (p.failed ==> Report(sb.id, sb.generation, PhaseFailed) in p.actions)
  {
    var p := Reconciled(slot, sb, a);
    if p.failed {
      assert p.actions[|p.actions| - 1] == Report(sb.id, sb.generation, PhaseFailed);
    }
  }

  // ---------------------------------------------------------------- every round of every history

  /** The round ends the life of the machine the agent tracks. */
  predicate Ends(turn: Turn) {
    match turn
    case Assigned(want, _) => want.desired.DesiredStopped? || want.desired.DesiredRemoved?
    case Unassigned => true
    case Unlisted => false
    case TornDown => true
  }

  /** Whatever the history, a tracked machine is stopped by the round that ends its life, and it is stopped
      by no other round, unless the driver says that it does not run or knows another one. */
  lemma TrackedMachinesAreStopped(turns: seq<Turn>, turn: Turn, id: string)
    requires turn.Assigned? ==> turn.want.id == id
    ensures
      var slot, acts := After(turns), Acts(After(turns), turn, id);
      && (slot.tracked && Ends(turn) ==> acts.Some? && StopVM(id) in acts.value)
      && (acts.Some? && StopVM(id) in acts.value ==>
            || (Ends(turn) && (slot.tracked || (turn.Assigned? && turn.answers.found)))
            || (&& turn.Assigned? && turn.want.desired == DesiredRunning
                && turn.answers.inspected.Some? && turn.answers.inspected != Some(PhaseRunning)))
  {
    hide After, Reconciled;
    match turn
    case Assigned(want, answers) =>
      if want.desired in {DesiredStopped, DesiredRemoved} {
        StoppingMeaning(After(turns), want, answers);
        StopIsDone(Reconciled(After(turns), want, answers).actions, id, Report(id, want.generation, PhaseStopped));
      } else if want.desired.DesiredOther? {
        IgnoringMeaning(After(turns), want, answers);
      } else if After(turns).tracked || answers.found {
        InspectingMeaning(After(turns), want, answers);
      } else {
        CreatingMeaning(After(turns), want, answers);
      }
    case _ =>
  }

  lemma StopIsDone(actions: seq<Action>, id: string, y: Action)
    ensures Before(actions, StopVM(id), y) ==> StopVM(id) in actions
  {
  }

  /** The round makes the machine known: the driver finds it, running if it should run, or creating it
      succeeds. */
  predicate Learns(slot: Slot, turn: Turn) {
    && turn.Assigned? && turn.want.desired != DesiredRemoved
    && (|| (&& turn.answers.found
            && (turn.want.desired == DesiredRunning ==> turn.answers.inspected == Some(PhaseRunning)))
        || Succeeds(slot, turn))
  }

  /** The round ends what is known: the sandbox is removed, unassigned or torn down, or should run and is
      not found running. */
  predicate Forgets(turn: Turn) {
    match turn
    case Assigned(want, answers) =>
      || want.desired == DesiredRemoved
      || (want.desired == DesiredRunning && answers.inspected != Some(PhaseRunning))
    case Unlisted => false
    case _ => true
  }

  /** Some round made the machine known, and none since ended that. */
  ghost predicate Known(turns: seq<Turn>) {
    exists i ::
      && 0 <= i < |turns| && Learns(After(turns[..i]), turns[i])
      && forall m :: i < m < |turns| ==> !Forgets(turns[m])
  }

  lemma KnownStep(init: seq<Turn>, turn: Turn)
    ensures Known(init + [turn]) <==> Learns(After(init), turn) || (Known(init) && !Forgets(turn))
  {
    hide After, Learns, Forgets;
    var turns := init + [turn];
    assert turns[..|init|] == init && turns[|init|] == turn;
    forall i | 0 <= i < |init| ensures turns[..i] == init[..i] && turns[i] == init[i] {
    }
    if i :| 0 <= i < |init| && Learns(After(init[..i]), init[i]) && forall m :: i < m < |init| ==> !Forgets(init[m]) {
      if !Forgets(turn) {
        assert Learns(After(turns[..i]), turns[i]) && forall m :: i < m < |turns| ==> !Forgets(turns[m]);
      }
    }
    if Known(turns) && !Learns(After(init), turn) {
      var i :| 0 <= i < |turns| && Learns(After(turns[..i]), turns[i])
        && forall m :: i < m < |turns| ==> !Forgets(turns[m]);
      assert i < |init| && Learns(After(init[..i]), init[i]);
      assert !Forgets(turns[|init|]);
      forall m | i < m < |init| ensures !Forgets(init[m]) {
        assert !Forgets(turns[m]);
      }
    }
  }

  lemma TrackingStep(slot: Slot, turn: Turn)
    ensures Next(slot, turn).tracked <==> Learns(slot, turn) || (slot.tracked && !Forgets(turn))
  {
    hide NoteRestart;
  }

  /** The agent tracks a machine exactly if its history made it known and did not end that since. */
  lemma {:induction false} TrackingIsHistory(turns: seq<Turn>)
    ensures After(turns).tracked <==> Known(turns)
  {
    hide Next, Learns, Forgets, Known;
    if |turns| == 0 {
      NothingKnown();
    } else {
      var init, turn := turns[..|turns| - 1], turns[|turns| - 1];
      assert turns == init + [turn];
      TrackingIsHistory(init);
      KnownStep(init, turn);
      TrackingStep(After(init), turn);
    }
  }

  lemma NothingKnown()
    ensures !Known([])
  {
  }
}
