/** The evacuation spreads sandboxes optimally over the nodes that may receive them. */
module VacateSpread {
  import opened Records
  import opened Seqs
  import opened Scheduler
  import opened Vacate
  import opened VacatePlan

  /** The nodes that may receive evacuated sandboxes, in list order. */
  function Targets(nodes: seq<Node>, now: Time, exclude: set<string>): (ids: seq<string>)
    ensures forall id :: id in ids <==> exists n :: n in nodes && n.id == id && Candidate(n, now, exclude, true)
  {
    if |nodes| == 0 then []
    else
      var last := nodes[|nodes| - 1];
      assert nodes == nodes[..|nodes| - 1] + [last];
      Targets(nodes[..|nodes| - 1], now, exclude)
      + (if Candidate(last, now, exclude, true) then [last.id] else [])
  }

  lemma {:induction false} TargetsDistinct(nodes: seq<Node>, now: Time, exclude: set<string>)
    requires UniqueNodes(nodes)
    ensures NoDup(Targets(nodes, now, exclude))
  {
    if |nodes| > 0 {
      var init := nodes[..|nodes| - 1];
      TargetsDistinct(init, now, exclude);
      var ids := Targets(init, now, exclude);
      forall i | 0 <= i < |ids| ensures ids[i] != nodes[|nodes| - 1].id {
        assert ids[i] in ids;
      }
    }
  }

  // ---------------------------------------------------------------- sums

  function SumLoad(ids: seq<string>, sandboxes: seq<Sandbox>): nat {
    if |ids| == 0 then 0 else Load(sandboxes, ids[0]) + SumLoad(ids[1..], sandboxes)
  }

  /** The total a distribution gives to the listed nodes. */
  function SumOf(ids: seq<string>, d: map<string, nat>): nat
    requires forall id :: id in ids ==> id in d
  {
    if |ids| == 0 then 0 else d[ids[0]] + SumOf(ids[1..], d)
  }

  /** Raising the load of one listed node by one raises the sum by one. */
  lemma {:induction false} SumBump(ids: seq<string>, before: seq<Sandbox>, after: seq<Sandbox>, target: string)
    requires NoDup(ids)
    requires forall id :: id in ids ==> Load(after, id) == Load(before, id) + (if id == target then 1 else 0)
    ensures SumLoad(ids, after) == SumLoad(ids, before) + (if target in ids then 1 else 0)
  {
    if |ids| > 0 {
      SumBump(ids[1..], before, after, target);
      assert ids == [ids[0]] + ids[1..];
      assert ids[0] == target ==> target !in ids[1..];
    }
  }

  /** A distribution nowhere above the loads, and below one of them, has the smaller sum. */
  lemma {:induction false} SumBelow(ids: seq<string>, d: map<string, nat>, sandboxes: seq<Sandbox>, strict: string)
    requires forall id :: id in ids ==> id in d && d[id] <= Load(sandboxes, id)
    requires strict in d && d[strict] < Load(sandboxes, strict)
    ensures SumOf(ids, d) + (if strict in ids then 1 else 0) <= SumLoad(ids, sandboxes)
  {
    if |ids| > 0 {
      SumBelow(ids[1..], d, sandboxes, strict);
      assert ids == [ids[0]] + ids[1..];
    }
  }

  // ---------------------------------------------------------------- the invariant of the greedy loop

  /** No listed node has lost load, the total grew by the moves made, and a node that has gained is
      at most one above any other. */
  ghost predicate Balanced(ids: seq<string>, before: seq<Sandbox>, after: seq<Sandbox>, moves: nat) {
    && SumLoad(ids, after) == SumLoad(ids, before) + moves
    && (forall a :: a in ids ==> Load(before, a) <= Load(after, a))
    && (forall a, b :: a in ids && b in ids && Load(before, a) < Load(after, a) ==>
          Load(after, a) <= Load(after, b) + 1)
  }

  /** A step that leaves the listed loads alone, or raises a least loaded listed node by one. */
  ghost predicate GreedyStep(ids: seq<string>, before: seq<Sandbox>, after: seq<Sandbox>, moves: nat) {
    || (moves == 0 && forall id :: id in ids ==> Load(after, id) == Load(before, id))
    || (moves == 1
        && exists t :: t in ids && forall id :: id in ids ==>
             && Load(before, t) <= Load(before, id)
             && Load(after, id) == Load(before, id) + (if id == t then 1 else 0))
  }

  lemma GreedyKeepsBalance(
      ids: seq<string>, start: seq<Sandbox>, before: seq<Sandbox>, after: seq<Sandbox>, moves: nat, step: nat)
    requires NoDup(ids)
    requires Balanced(ids, start, before, moves)
    requires GreedyStep(ids, before, after, step)
    ensures Balanced(ids, start, after, moves + step)
  {
    if step == 0 {
      SumSame(ids, before, after);
    } else {
      var t :| t in ids && forall id :: id in ids ==>
        && Load(before, t) <= Load(before, id)
        && Load(after, id) == Load(before, id) + (if id == t then 1 else 0);
      SumBump(ids, before, after, t);
    }
  }

  lemma {:induction false} SumSame(ids: seq<string>, before: seq<Sandbox>, after: seq<Sandbox>)
    requires forall id :: id in ids ==> Load(after, id) == Load(before, id)
    ensures SumLoad(ids, after) == SumLoad(ids, before)
  {
    if |ids| > 0 {
      SumSame(ids[1..], before, after);
    }
  }

  /** Each choice of the planner is such a step. */
  lemma ChoiceIsGreedy(
      nodes: seq<Node>, sandboxes: seq<Sandbox>, now: Time, exclude: set<string>, choices: seq<Option<Decision>>)
    requires UniqueNodes(nodes)
    requires 0 < |choices| <= |sandboxes|
    requires AllFit(nodes, sandboxes, now, exclude, choices)
    ensures var init := choices[..|choices| - 1];
      && Moves(Decided(init)) <= Moves(Decided(choices))
      && GreedyStep(Targets(nodes, now, exclude), Working(sandboxes, init), Working(sandboxes, choices),
                    Moves(Decided(choices)) - Moves(Decided(init)))
  {
    hide Working, Targets, Decided, GoodTarget, MustLeave, Load;
    var k := |choices| - 1;
    var before := Working(sandboxes, choices[..k]);
    assert Fits(nodes, before, sandboxes[k], now, exclude, choices[k]);
    AllShift(nodes, sandboxes, now, exclude, choices);
    MovesAfterChoice(choices);
    forall id {
      LoadAfterChoice(sandboxes, choices, id);
    }
    if choices[k].Some? && !choices[k].value.failedMount {
      var target := choices[k].value.sandbox.nodeID;
      SourceNotListed(nodes, now, exclude, sandboxes[k], choices[k].value.reason);
      LeastAmongTargets(nodes, before, now, exclude, target);
      assert forall id :: id in Targets(nodes, now, exclude) ==>
        && Load(before, target) <= Load(before, id)
        && Load(Working(sandboxes, choices), id) == Load(before, id) + (if id == target then 1 else 0);
    }
  }

  /** How many reassignments, and what loads, there are after one more choice. */
  lemma MovesAfterChoice(choices: seq<Option<Decision>>)
    requires 0 < |choices|
    ensures var last := choices[|choices| - 1];
      Moves(Decided(choices))
        == Moves(Decided(choices[..|choices| - 1])) + (if last.Some? && !last.value.failedMount then 1 else 0)
  {
    var init := choices[..|choices| - 1];
    if choices[|choices| - 1].Some? {
      assert Decided(choices)[..|Decided(choices)| - 1] == Decided(init);
    } else {
      assert Decided(choices) == Decided(init);
    }
  }

  lemma LoadAfterChoice(sandboxes: seq<Sandbox>, choices: seq<Option<Decision>>, id: string)
    requires 0 < |choices| <= |sandboxes|
    requires Shifts(sandboxes[|choices| - 1], choices[|choices| - 1])
    ensures var last := |choices| - 1;
      var moved := choices[last].Some? && !choices[last].value.failedMount;
      Load(Working(sandboxes, choices), id) == Load(Working(sandboxes, choices[..last]), id)
        - (if moved && id == sandboxes[last].nodeID then 1 else 0)
        + (if moved && id == choices[last].value.sandbox.nodeID then 1 else 0)
  {
    hide Working, Load;
    var last := |choices| - 1;
    WorkingStep(sandboxes, choices);
    if choices[last].Some? {
      LoadUpdate(Working(sandboxes, choices[..last]), last, choices[last].value.sandbox, id);
    }
  }

  /** The node a sandbox must leave is not among the targets. */
  lemma SourceNotListed(nodes: seq<Node>, now: Time, exclude: set<string>, sb: Sandbox, reason: Reason)
    requires UniqueNodes(nodes)
    requires MustLeave(nodes, sb, now, reason)
    ensures sb.nodeID !in Targets(nodes, now, exclude)
  {
    if sb.nodeID in Targets(nodes, now, exclude) {
      LiveTargetIsSafe(nodes, now, exclude, sb.nodeID, sb, reason);
    }
  }

  lemma LeastAmongTargets(nodes: seq<Node>, working: seq<Sandbox>, now: Time, exclude: set<string>, target: string)
    requires GoodTarget(nodes, working, now, exclude, target)
    ensures target in Targets(nodes, now, exclude)
    ensures forall id :: id in Targets(nodes, now, exclude) ==> Load(working, target) <= Load(working, id)
  {
    forall id | id in Targets(nodes, now, exclude)
      ensures Load(working, target) <= Load(working, id)
    {
      var n :| n in nodes && n.id == id && Candidate(n, now, exclude, true);
      var j :| 0 <= j < |nodes| && nodes[j] == n;
    }
  }

  lemma {:induction false} GreedyInvariant(
      nodes: seq<Node>, sandboxes: seq<Sandbox>, now: Time, exclude: set<string>, choices: seq<Option<Decision>>)
    requires UniqueNodes(nodes)
    requires |choices| <= |sandboxes|
    requires AllFit(nodes, sandboxes, now, exclude, choices)
    ensures Balanced(Targets(nodes, now, exclude), sandboxes, Working(sandboxes, choices), Moves(Decided(choices)))
  {
    hide Fits, Working, Targets;
    var ids := Targets(nodes, now, exclude);
    if |choices| == 0 {
      assert Working(sandboxes, choices) == sandboxes;
    } else {
      var k := |choices| - 1;
      var init := choices[..k];
      AllFitPrefix(nodes, sandboxes, now, exclude, choices, k);
      GreedyInvariant(nodes, sandboxes, now, exclude, init);
      ChoiceIsGreedy(nodes, sandboxes, now, exclude, choices);
      TargetsDistinct(nodes, now, exclude);
      GreedyKeepsBalance(ids, sandboxes, Working(sandboxes, init), Working(sandboxes, choices),
                         Moves(Decided(init)), Moves(Decided(choices)) - Moves(Decided(init)));
    }
  }

  lemma AllFitPrefix(
      nodes: seq<Node>, sandboxes: seq<Sandbox>, now: Time, exclude: set<string>,
      choices: seq<Option<Decision>>, k: nat)
    requires k <= |choices| <= |sandboxes|
    requires AllFit(nodes, sandboxes, now, exclude, choices)
    ensures AllFit(nodes, sandboxes, now, exclude, choices[..k])
  {
    hide Fits, Working;
    forall i | 0 <= i < k
      ensures Fits(nodes, Working(sandboxes, choices[..k][..i]), sandboxes[i], now, exclude, choices[..k][i])
    {
      assert choices[..k][..i] == choices[..i];
    }
  }

  // ---------------------------------------------------------------- optimality

  /** A node that receives a reassignment is a target, and its load grew. */
  lemma MovedOnlyToTargets(nodes: seq<Node>, sandboxes: seq<Sandbox>, now: Time, exclude: set<string>, id: string)
    requires UniqueNodes(nodes)
    requires id in Targets(nodes, now, exclude)
    ensures Load(Planned(nodes, sandboxes, now, exclude), id)
         == Load(sandboxes, id) + MovesTo(PlanVacate(nodes, sandboxes, now, exclude), id)
  {
    hide Choices, Fits;
    var choices := Choices(nodes, sandboxes, now, exclude, |sandboxes|);
    ChoicesFit(nodes, sandboxes, now, exclude, |sandboxes|);
    PlanConserves(nodes, sandboxes, now, exclude, id);
    NoneLeave(nodes, sandboxes, now, exclude, choices, id);
  }

  lemma {:induction false} NoneLeave(
      nodes: seq<Node>, sandboxes: seq<Sandbox>, now: Time, exclude: set<string>,
      choices: seq<Option<Decision>>, id: string)
    requires UniqueNodes(nodes)
    requires |choices| <= |sandboxes| && AllFit(nodes, sandboxes, now, exclude, choices)
    requires id in Targets(nodes, now, exclude)
    ensures MovesFrom(Decided(choices), id) == 0
  {
    hide Working, Targets, GoodTarget, MustLeave;
    if |choices| > 0 {
      var k := |choices| - 1;
      AllFitPrefix(nodes, sandboxes, now, exclude, choices, k);
      NoneLeave(nodes, sandboxes, now, exclude, choices[..k], id);
      assert Fits(nodes, Working(sandboxes, choices[..k]), sandboxes[k], now, exclude, choices[k]);
      if choices[k].Some? {
        SourceNotListed(nodes, now, exclude, sandboxes[k], choices[k].value.reason);
        assert Decided(choices)[..|Decided(choices)| - 1] == Decided(choices[..k]);
      } else {
        assert Decided(choices) == Decided(choices[..k]);
      }
    }
  }

  /** Even spread.  Every target that received a reassignment ends at most one above the least load
      among the targets. */
  lemma SpreadIsEven(
      nodes: seq<Node>, sandboxes: seq<Sandbox>, now: Time, exclude: set<string>, id: string, other: string)
    requires UniqueNodes(nodes)
    requires id in Targets(nodes, now, exclude) && other in Targets(nodes, now, exclude)
    requires MovesTo(PlanVacate(nodes, sandboxes, now, exclude), id) > 0
    ensures var planned := Planned(nodes, sandboxes, now, exclude);
      Load(planned, id) <= Load(planned, other) + 1
  {
    hide Choices, Fits;
    ChoicesFit(nodes, sandboxes, now, exclude, |sandboxes|);
    GreedyInvariant(nodes, sandboxes, now, exclude, Choices(nodes, sandboxes, now, exclude, |sandboxes|));
    MovedOnlyToTargets(nodes, sandboxes, now, exclude, id);
  }

  /** Optimal spread.  Take any way `d` of loading the targets that keeps what they already carry and
      adds as many sandboxes as the plan moved.  Then some target carries, under `d`, at least what
      the most loaded target carries after the plan. */
  lemma SpreadIsOptimal(
      nodes: seq<Node>, sandboxes: seq<Sandbox>, now: Time, exclude: set<string>, d: map<string, nat>, id: string)
    requires UniqueNodes(nodes)
    requires id in Targets(nodes, now, exclude)
    requires forall t :: t in Targets(nodes, now, exclude) ==> t in d && Load(sandboxes, t) <= d[t]
    requires SumOf(Targets(nodes, now, exclude), d)
          == SumLoad(Targets(nodes, now, exclude), sandboxes) + Moves(PlanVacate(nodes, sandboxes, now, exclude))
    ensures exists t ::
      t in Targets(nodes, now, exclude) && Load(Planned(nodes, sandboxes, now, exclude), id) <= d[t]
  {
    hide Choices, Fits, Targets;
    var ids := Targets(nodes, now, exclude);
    var planned := Planned(nodes, sandboxes, now, exclude);
    ChoicesFit(nodes, sandboxes, now, exclude, |sandboxes|);
    GreedyInvariant(nodes, sandboxes, now, exclude, Choices(nodes, sandboxes, now, exclude, |sandboxes|));
    if forall t :: t in ids ==> d[t] < Load(planned, id) {
      assert Load(sandboxes, id) < Load(planned, id);
      SumBelow(ids, d, planned, id);
    }
  }
}
