/** The node-local reconciler: what it does with each assigned sandbox, and the restart backoff.

    Answers of the runtime driver, of the status reporter and of the clock are inputs. */
module Agent {
  import opened Records

  // ---------------------------------------------------------------- the backoff delay

  const BASE: Time := 5 * SECOND
  const CAP: Time := 60 * SECOND

  function Pow2(n: nat): (p: nat)
    ensures p >= 1
  {
    if n == 0 then 1 else 2 * Pow2(n - 1)
  }

  lemma {:induction false} Pow2Monotone(a: nat, b: nat)
    requires a <= b
    ensures Pow2(a) <= Pow2(b)
    decreases b
  {
    if a < b {
      Pow2Monotone(a, b - 1);
    }
  }

  /** The delay after a number of earlier attempts: five seconds, doubled each time, at most sixty. */
  function RestartDelay(attempts: int): Time {
    var d := BASE * Pow2(if attempts < 0 then 0 else attempts);
    if d < CAP then d else CAP
  }

  lemma DelayMonotone(a: nat, b: nat)
    requires a <= b
    ensures 5 * SECOND <= RestartDelay(a) <= RestartDelay(b) <= 60 * SECOND
  {
    Pow2Monotone(a, b);
  }

  /** The delays, one by one: 5, 10, 20, 40 seconds, and 60 from the fifth on. */
  lemma DelayTable(attempts: int)
    ensures RestartDelay(attempts) ==
      if attempts <= 0 then 5 * SECOND
      else if attempts == 1 then 10 * SECOND
      else if attempts == 2 then 20 * SECOND
      else if attempts == 3 then 40 * SECOND
      else 60 * SECOND
  {
    assert Pow2(1) == 2 && Pow2(2) == 4 && Pow2(3) == 8 && Pow2(4) == 16;
    if attempts >= 4 {
      Pow2Monotone(4, attempts);
    }
  }

  /** The program's loop computes that closed form, for every argument. */
  method NextRestartDelay(attempts: int) returns (delay: Time)
    ensures delay == RestartDelay(attempts)
  {
    var n := if attempts < 0 then 0 else attempts;
    var d := BASE;
    for i := 0 to n
      invariant d == BASE * Pow2(i)
    {
      if d >= CAP {
        Pow2Monotone(i, n);
        return CAP;
      }
      d := d * 2;
    }
    if d > CAP {
      return CAP;
    }
    return d;
  }

  // ---------------------------------------------------------------- one sandbox, as a function

  /** `attempts` failures since the last success; no new attempt before `notBefore`. */
  datatype Backoff = Backoff(attempts: nat, notBefore: Time, reason: string)

  /** What the agent knows about one sandbox. */
  datatype Slot = Slot(tracked: bool, backoff: Option<Backoff>)

  const EMPTY_SLOT := Slot(false, None)

  /** What the outside answers in one pass over a sandbox.  `found`: the driver knows a handle for it;
      `inspected`: its phase, or nothing on an error; `created`: creating succeeded; `reported`: the
      last report was delivered; `now` and `later`: the clock before the attempt and after it. */
  datatype Answers = Answers(
    found: bool, inspected: Option<Phase>, created: bool, error: string, reported: bool, now: Time, later: Time)

  datatype Action =
    | StopVM(id: string)
    | RemoveVM(id: string)
    | CreateOrConnect(id: string, at: Time)
    | Report(id: string, generation: int, phase: Phase)

  /** One pass: the new slot, what was done, and whether an error is returned. */
  datatype Pass = Pass(slot: Slot, actions: seq<Action>, failed: bool)

  function NoteRestart(b: Option<Backoff>, reason: string, later: Time): Option<Backoff> {
    var attempts := if b.Some? then b.value.attempts else 0;
    Some(Backoff(attempts + 1, later + RestartDelay(attempts), reason))
  }

  function ReportOn(sb: Sandbox, phase: Phase): Action {
    Report(sb.id, sb.generation, phase)
  }

  function CreateDesiredRunning(b: Option<Backoff>, sb: Sandbox, a: Answers): Pass {
    if b.Some? && a.now < b.value.notBefore then
      Pass(Slot(false, b), [ReportOn(sb, PhaseStarting)], !a.reported)
    else
      var tried := [ReportOn(sb, PhaseStarting), CreateOrConnect(sb.id, a.now)];
      if !a.created then Pass(Slot(false, NoteRestart(b, a.error, a.later)), tried, true)
      else Pass(Slot(true, None), tried + [ReportOn(sb, PhaseRunning)], !a.reported)
  }

  function ReconcileOne(slot: Slot, sb: Sandbox, a: Answers): Pass {
    var tracked := slot.tracked || a.found;
    match sb.desired
    case DesiredRemoved =>
      Pass(EMPTY_SLOT,
           (if tracked then [StopVM(sb.id), RemoveVM(sb.id)] else []) + [ReportOn(sb, PhaseStopped)], !a.reported)
    case DesiredStopped =>
      Pass(Slot(tracked, None),
           (if tracked then [StopVM(sb.id)] else []) + [ReportOn(sb, PhaseStopped)], !a.reported)
    case DesiredRunning =>
      if !tracked then CreateDesiredRunning(slot.backoff, sb, a)
      else (
        match a.inspected
        case None => Pass(Slot(false, NoteRestart(slot.backoff, "inspect: " + a.error, a.later)), [], true)
        case Some(phase) =>
          if phase.PhaseRunning? then Pass(Slot(true, slot.backoff), [ReportOn(sb, phase)], !a.reported)
          else
            Pass(Slot(false, NoteRestart(slot.backoff, "sandbox not running", a.later)),
                 [ReportOn(sb, phase), StopVM(sb.id), RemoveVM(sb.id)], false)
      )
    case DesiredOther(_) => Pass(Slot(tracked, slot.backoff), [], false)
  }

  /** The pass with the extra report the reconciler makes when it returns an error. */
  function Reconciled(slot: Slot, sb: Sandbox, a: Answers): Pass {
    var p := ReconcileOne(slot, sb, a);
    if p.failed then p.(actions := p.actions + [ReportOn(sb, PhaseFailed)]) else p
  }

  /** A pass over a sandbox that is no longer assigned. */
  function Dropped(slot: Slot): Slot {
    if slot.tracked then EMPTY_SLOT else slot
  }

  /** How the machine of a sandbox is got rid of. */
  function Destroyed(id: string): seq<Action> {
    [StopVM(id), RemoveVM(id)]
  }

  /** Every report of a pass carries the generation of the assignment the pass works from. */
  lemma ReportsCarryTheGeneration(slot: Slot, sb: Sandbox, a: Answers)
    ensures forall x :: x in Reconciled(slot, sb, a).actions && x.Report? ==>
      x.id == sb.id && x.generation == sb.generation
  {
  }

  /** The assigned sandboxes by identifier; of several with one identifier the last one counts. */
  function Wanted(list: seq<Sandbox>): (want: map<string, Sandbox>)
    ensures forall id :: id in want ==> want[id].id == id && want[id] in list
    ensures forall sb :: sb in list ==> sb.id in want
  {
    if |list| == 0 then map[]
    else
      var last := list[|list| - 1];
      assert list == list[..|list| - 1] + [last];
      Wanted(list[..|list| - 1])[last.id := last]
  }

  /** The assignment at this position is the last one for its sandbox. */
  ghost predicate LastFor(list: seq<Sandbox>, i: nat) {
    i < |list| && forall j :: i < j < |list| ==> list[j].id != list[i].id
  }

  lemma {:induction false} WantedIsLast(list: seq<Sandbox>, i: nat)
    requires LastFor(list, i)
    ensures list[i].id in Wanted(list) && Wanted(list)[list[i].id] == list[i]
  {
    if i < |list| - 1 {
      WantedIsLast(list[..|list| - 1], i);
    }
  }

  // ---------------------------------------------------------------- the agent

  class Reconciler {
    var local: set<string>
    var restarts: map<string, Backoff>

    constructor ()
      ensures local == {} && restarts == map[]
    {
      local, restarts := {}, map[];
    }

    function SlotOf(id: string): Slot
      reads this
    {
      Slot(id in local, if id in restarts then Some(restarts[id]) else None)
    }

    /** Forgets everything, and stops and removes every machine it tracked; the order among machines is
        open, as each has its own thread. */
    method TeardownLocal() returns (actions: map<string, seq<Action>>)
      modifies this
      ensures forall id :: SlotOf(id) == EMPTY_SLOT
      ensures actions == map id | id in old(local) :: Destroyed(id)
    {
      var ids := local;
      local, restarts := {}, map[];
      actions := map[];
      while ids != {}
        invariant ids <= old(local)
        invariant actions == map id | id in old(local) - ids :: Destroyed(id)
        decreases ids
      {
        var id :| id in ids;
        actions, ids := actions[id := Destroyed(id)], ids - {id};
      }
    }

    method Note(id: string, reason: string, later: Time)
      modifies `restarts
      ensures SlotOf(id) == Slot(id in local, NoteRestart(old(SlotOf(id)).backoff, reason, later))
      ensures forall x :: x != id ==> SlotOf(x) == old(SlotOf(x))
    {
      var attempts := if id in restarts then restarts[id].attempts else 0;
      var delay := NextRestartDelay(attempts);
      restarts := restarts[id := Backoff(attempts + 1, later + delay, reason)];
    }

    method Create(sb: Sandbox, a: Answers) returns (actions: seq<Action>, failed: bool)
      requires sb.id !in local
      modifies this
      ensures Pass(SlotOf(sb.id), actions, failed) == CreateDesiredRunning(old(SlotOf(sb.id)).backoff, sb, a)
      ensures forall x :: x != sb.id ==> SlotOf(x) == old(SlotOf(x))
    {
      actions := [ReportOn(sb, PhaseStarting)];
      if sb.id in restarts {
        if a.now < restarts[sb.id].notBefore {
          return actions, !a.reported;
        }
      }
      actions := actions + [CreateOrConnect(sb.id, a.now)];
      if !a.created {
        Note(sb.id, a.error, a.later);
        return actions, true;
      }
      local := local + {sb.id};
      restarts := restarts - {sb.id};
      actions := actions + [ReportOn(sb, PhaseRunning)];
      failed := !a.reported;
    }

    method One(sb: Sandbox, a: Answers) returns (actions: seq<Action>, failed: bool)
      modifies this
      ensures Pass(SlotOf(sb.id), actions, failed) == ReconcileOne(old(SlotOf(sb.id)), sb, a)
      ensures forall x :: x != sb.id ==> SlotOf(x) == old(SlotOf(x))
    {
      hide NoteRestart, CreateDesiredRunning;
      var tracked := sb.id in local;
      if !tracked {
        if a.found {
          tracked := true;
          local := local + {sb.id};
        }
      }
      match sb.desired {
        case DesiredOther(_) =>
          return [], false;
        case DesiredRunning =>
          if !tracked {
            actions, failed := Create(sb, a);
            return;
          }
          if a.inspected.None? {
            local := local - {sb.id};
            Note(sb.id, "inspect: " + a.error, a.later);
            return [], true;
          }
          actions := [ReportOn(sb, a.inspected.value)];
          if a.inspected.value.PhaseRunning? {
            return actions, !a.reported;
          }
          local := local - {sb.id};
          Note(sb.id, "sandbox not running", a.later);
          return actions + [StopVM(sb.id), RemoveVM(sb.id)], false;
        case _ =>
          restarts := restarts - {sb.id};
          actions := [];
          if tracked {
            actions := actions + [StopVM(sb.id)];
            if sb.desired.DesiredRemoved? {
              actions := actions + [RemoveVM(sb.id)];
              local := local - {sb.id};
            }
          }
          return actions + [ReportOn(sb, PhaseStopped)], !a.reported;
      }
    }

    /** A whole pass over the assigned sandboxes, in an arbitrary order, and then over the tracked ones
        that are not assigned, which are stopped and removed; nothing happens if the assignments could
        not be listed.  Whatever the order, each sandbox ends in the slot of its own pass, and what
        remains tracked is assigned. */
    method Reconcile(listed: Option<seq<Sandbox>>, answers: string -> Answers)
      returns (actions: map<string, seq<Action>>)
      modifies this
      ensures listed.None? ==> actions == map[] && forall id :: SlotOf(id) == old(SlotOf(id))
      ensures listed.Some? ==>
        var want := Wanted(listed.value);
        && local <= want.Keys
        && (forall id :: id in want ==>
              && SlotOf(id) == Reconciled(old(SlotOf(id)), want[id], answers(id)).slot
              && id in actions && actions[id] == Reconciled(old(SlotOf(id)), want[id], answers(id)).actions)
        && (forall id :: id !in want ==>
              && SlotOf(id) == Dropped(old(SlotOf(id)))
              && (id in actions <==> id in old(local))
              && (id in actions ==> actions[id] == Destroyed(id)))
    {
      hide ReconcileOne;
      actions := map[];
      if listed.None? {
        return;
      }
      var list := listed.value;
      var want: map<string, Sandbox> := map[];
      for i := 0 to |list|
        invariant want == Wanted(list[..i])
      {
        assert list[..i + 1][..i] == list[..i];
        want := want[list[i].id := list[i]];
      }
      assert list[..|list|] == list;
      actions := ReconcileWanted(want, answers);
      assert forall id :: id in local && id !in want ==> SlotOf(id).tracked;
      var destroyed := ForgetUnassigned(want.Keys);
      actions := actions + destroyed;
    }

    method ReconcileWanted(want: map<string, Sandbox>, answers: string -> Answers)
      returns (actions: map<string, seq<Action>>)
      requires forall id :: id in want ==> want[id].id == id
      modifies this
      ensures forall id :: id in want ==>
        && SlotOf(id) == Reconciled(old(SlotOf(id)), want[id], answers(id)).slot
        && id in actions && actions[id] == Reconciled(old(SlotOf(id)), want[id], answers(id)).actions
      ensures actions.Keys == want.Keys
      ensures forall id :: id !in want ==> SlotOf(id) == old(SlotOf(id))
    {
      hide ReconcileOne;
      actions := map[];
      var rest := want.Keys;
      while rest != {}
        invariant rest <= want.Keys && actions.Keys == want.Keys - rest
        invariant forall id :: id !in want || id in rest ==> SlotOf(id) == old(SlotOf(id))
        invariant forall id :: id in want && id !in rest ==>
          && SlotOf(id) == Reconciled(old(SlotOf(id)), want[id], answers(id)).slot
          && id in actions && actions[id] == Reconciled(old(SlotOf(id)), want[id], answers(id)).actions
        decreases rest
      {
        var id :| id in rest;
        var done, failed := One(want[id], answers(id));
        if failed {
          done := done + [ReportOn(want[id], PhaseFailed)];
        }
        actions, rest := actions[id := done], rest - {id};
      }
    }

    method ForgetUnassigned(want: set<string>) returns (actions: map<string, seq<Action>>)
      modifies this
      ensures local <= want
      ensures forall id :: id in want ==> SlotOf(id) == old(SlotOf(id))
      ensures forall id :: id !in want ==> SlotOf(id) == Dropped(old(SlotOf(id)))
      ensures actions == map id | id in old(local) - want :: Destroyed(id)
    {
      actions := map[];
      var rest := local;
      while rest != {}
        invariant rest <= old(local)
        invariant local == old(local) * (want + rest)
        invariant restarts == old(restarts) - (old(local) - want - rest)
        invariant actions == map id | id in old(local) - want - rest :: Destroyed(id)
        decreases rest
      {
        var id :| id in rest;
        rest := rest - {id};
        if id in want {
          continue;
        }
        actions := actions[id := Destroyed(id)];
        local, restarts := local - {id}, restarts - {id};
      }
    }
  }
}
