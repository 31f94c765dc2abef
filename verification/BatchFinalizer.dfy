/**
 Trimming the best group to a menu that pays: the exact transaction of the whole menu is simulated
 and priced, and the last candidate is dropped while some candidate would not cover the cost.
 */
module BatchFinalizer {
  import opened Bytes
  import opened PackedFormat
  import opened BatchPlanner

  /** Simulation and gas estimate of one exact transaction; the RPC node answers what it answers. */
  datatype Probe = RpcFailed | SimulationFailed | Simulated(simulatedGas: Option<nat>, estimatedGas: Option<nat>)

  type Prober = seq<Row> -> Probe

  /** The whole fee of the exact transaction at this gas use, in units of the asset. */
  type Coster = (seq<Row>, nat) -> nat

  datatype Reason = NoCompatibleCandidates | SimulationRpcFailed | ExecutorSimulationFailed | GasMeasurementMissing
      | NothingPays

  datatype Plan = Plan(menu: seq<Row>, gasCost: Option<nat>, net: Option<int>, eligible: bool, trimmed: seq<nat>,
      reason: Option<Reason>)

  datatype Judgement = Blocked(reason: Reason) | Short | Pays(gasCost: nat, net: nat)

  predicate HaveFields(rows: seq<Row>) {
    forall i :: 0 <= i < |rows| ==> rows[i].fields.Some?
  }

  function MinProfit(rows: seq<Row>): nat
    requires rows != [] && HaveFields(rows)
  {
    var n := |rows| - 1;
    var last := rows[n].fields.value.minProfit;
    if n == 0 then last
    else
      var rest := MinProfit(rows[..n]);
      if rest <= last then rest else last
  }

  /** max() over the gas figures there are. */
  function GasUsed(p: Probe): Option<nat> {
    if !p.Simulated? then None
    else if p.simulatedGas.None? then p.estimatedGas
    else if p.estimatedGas.None? || p.simulatedGas.value >= p.estimatedGas.value then p.simulatedGas
    else p.estimatedGas
  }

  /** One round of the loop for the menu as it stands. */
  function Judge(rows: seq<Row>, probe: Prober, cost: Coster): Judgement
    requires rows != [] && HaveFields(rows)
  {
    match probe(rows)
    case RpcFailed => Blocked(SimulationRpcFailed)
    case SimulationFailed => Blocked(ExecutorSimulationFailed)
    case Simulated(_, _) =>
      match GasUsed(probe(rows))
      case None => Blocked(GasMeasurementMissing)
      case Some(gas) =>
        var gasCost := cost(rows, gas);
        if MinProfit(rows) > gasCost then Pays(gasCost, MinProfit(rows) - gasCost) else Short
  }

  /** What the loop returns for a menu and the candidates trimmed so far. */
  function Decide(rows: seq<Row>, trimmed: seq<nat>, probe: Prober, cost: Coster): Plan
    requires HaveFields(rows)
    decreases |rows|
  {
    if rows == [] then Plan([], None, None, false, trimmed, Some(NothingPays))
    else
      match Judge(rows, probe, cost)
      case Blocked(reason) => Plan(rows, None, None, false, [], Some(reason))
      case Pays(gasCost, net) => Plan(rows, Some(gasCost), Some(net), true, trimmed, None)
      case Short => Decide(rows[..|rows| - 1], trimmed + [rows[|rows| - 1].routeId], probe, cost)
  }

  /** max(1, min(limit, 8)). */
  function MenuLimit(limit: int): (n: nat)
    ensures 1 <= n <= MAX_PACKED_CANDIDATES
  {
    if limit < 1 then 1 else if limit > MAX_PACKED_CANDIDATES then MAX_PACKED_CANDIDATES else limit
  }

  function FirstOf(rows: seq<Row>, n: nat): seq<Row> {
    if |rows| <= n then rows else rows[..n]
  }

  /** The best group, cut to the menu limit. */
  function TopMenu(evaluations: seq<Row>, limit: int): seq<Row> {
    var groups := RankedGroups(evaluations);
    if groups == [] then [] else FirstOf(groups[0], MenuLimit(limit))
  }

  /** Usable rows of the evaluations that share asset, amount, target block and deadline. */
  ghost predicate FromOneGroup(menu: seq<Row>, evaluations: seq<Row>, k: Key) {
    forall r :: r in menu ==> r in evaluations && InGroup(r, k)
  }

  lemma TopMenuUsable(evaluations: seq<Row>, limit: int)
    ensures RankedGroups(evaluations) == [] <==> TopMenu(evaluations, limit) == []
    ensures RankedGroups(evaluations) != [] ==>
              exists k :: FromOneGroup(TopMenu(evaluations, limit), evaluations, k)
    ensures HaveFields(TopMenu(evaluations, limit))
    ensures |TopMenu(evaluations, limit)| <= MAX_PACKED_CANDIDATES
  {
    hide RankedGroups, InGroup;
    var groups := RankedGroups(evaluations);
    if groups != [] {
      GroupsAreKeys(evaluations, 0);
      var k :| k in Keys(evaluations) && GroupOf(groups[0], evaluations, k);
      MenuInGroup(groups[0], TopMenu(evaluations, limit), evaluations, k);
    }
  }

  lemma MenuInGroup(g: seq<Row>, menu: seq<Row>, rows: seq<Row>, k: Key)
    requires GroupOf(g, rows, k) && menu <= g
    ensures HaveFields(menu) && FromOneGroup(menu, rows, k)
  {
    forall r | r in menu
      ensures r in rows && InGroup(r, k)
    {
      var i :| 0 <= i < |menu| && menu[i] == r;
      assert g[i] == r && r in g;
    }
    assert forall i :: 0 <= i < |menu| ==> menu[i] in menu;
  }

  /** The menu is the front of the best group, cut at the limit between 1 and 8. */
  lemma TopMenuIsFront(evaluations: seq<Row>, limit: int)
    requires RankedGroups(evaluations) != []
    ensures var g, menu := RankedGroups(evaluations)[0], TopMenu(evaluations, limit);
            && menu <= g
            && (limit < 1 ==> |menu| <= 1) && (1 <= limit <= 8 ==> |menu| <= limit) && |menu| <= 8
            && (|menu| < |g| ==> |menu| == (if limit < 1 then 1 else if limit <= 8 then limit else 8))
  {
    hide RankedGroups;
  }

  /** The menu leads with the best usable row of all: the largest net profit, and the smallest id on ties. */
  lemma TopMenuLeadsWithBest(evaluations: seq<Row>, limit: int)
    requires RankedGroups(evaluations) != []
    ensures TopMenu(evaluations, limit) != []
    ensures var best := TopMenu(evaluations, limit)[0];
            && best in evaluations
            && best.submissionEligible && best.fields.Some? && best.net.Some? && best.net.value > 0
            && forall r: Row :: r in evaluations && Usable(r) ==>
                 best.net.value > r.net.value || (best.net.value == r.net.value && best.routeId <= r.routeId)
  {
    hide RankedGroups, InGroup;
    TopMenuIsFront(evaluations, limit);
    BestOfAll(evaluations);
  }

  method LeastProfit(rows: seq<Row>) returns (least: nat)
    requires rows != [] && HaveFields(rows)
    ensures least == MinProfit(rows)
  {
    least := rows[0].fields.value.minProfit;
    assert rows[..1] == [rows[0]];
    for i := 1 to |rows|
      invariant least == MinProfit(rows[..i])
    {
      assert rows[..i + 1][..i] == rows[..i];
      if rows[i].fields.value.minProfit < least {
        least := rows[i].fields.value.minProfit;
      }
    }
    assert rows[..|rows|] == rows;
  }

  /** PackedBatchFinalizer.finalize. */
  method Finalize(evaluations: seq<Row>, limit: int, probe: Prober, cost: Coster) returns (plan: Plan)
    ensures HaveFields(TopMenu(evaluations, limit))
    ensures plan == if RankedGroups(evaluations) == []
            then Plan([], None, None, false, [], Some(NoCompatibleCandidates))
                    else Decide(TopMenu(evaluations, limit), [], probe, cost)
  {
    hide RankedGroups;
    var groups := CompatibleGroups(evaluations);
    TopMenuUsable(evaluations, limit);
    if groups == [] {
      return Plan([], None, None, false, [], Some(NoCompatibleCandidates));
    }
    var rows := FirstOf(groups[0], MenuLimit(limit));
    var blockers: seq<nat> := [];
    hide TopMenu, FirstOf, MenuLimit;
    while rows != []
      invariant HaveFields(rows)
      invariant Decide(rows, blockers, probe, cost) == Decide(TopMenu(evaluations, limit), [], probe, cost)
      decreases |rows|
    {
      var answer := probe(rows);
      if answer.RpcFailed? {
        return Plan(rows, None, None, false, [], Some(SimulationRpcFailed));
      }
      if answer.SimulationFailed? {
        return Plan(rows, None, None, false, [], Some(ExecutorSimulationFailed));
      }
      var gasUsed := GasUsed(answer);
      if gasUsed.None? {
        return Plan(rows, None, None, false, [], Some(GasMeasurementMissing));
      }
      var gasCost := cost(rows, gasUsed.value);
      var least := LeastProfit(rows);
      var net := least as int - gasCost;
      if net > 0 {
        return Plan(rows, Some(gasCost), Some(net), true, blockers, None);
      }
      blockers := blockers + [rows[|rows| - 1].routeId];
      rows := rows[..|rows| - 1];
    }
    return Plan([], None, None, false, blockers, Some(NothingPays));
  }

  /** The gas that is charged is the larger of the two figures, and there is one exactly if either was measured. */
  lemma GasUsedIsLargest(p: Probe)
    ensures GasUsed(p).Some? <==> p.Simulated? && (p.simulatedGas.Some? || p.estimatedGas.Some?)
    ensures GasUsed(p).Some? ==>
              && GasUsed(p) in {p.simulatedGas, p.estimatedGas}
              && (p.simulatedGas.Some? ==> p.simulatedGas.value <= GasUsed(p).value)
              && (p.estimatedGas.Some? ==> p.estimatedGas.value <= GasUsed(p).value)
  {
  }

  // ---- what an eligible plan is ----

  predicate Measured(rows: seq<Row>, probe: Prober) {
    GasUsed(probe(rows)).Some?
  }

  function CostOf(rows: seq<Row>, probe: Prober, cost: Coster): nat {
    match GasUsed(probe(rows)) case None => 0 case Some(gas) => cost(rows, gas)
  }

  /** The minimum is attained, and nothing is below it. */
  lemma {:induction false} MinProfitIsLeast(rows: seq<Row>)
    requires rows != [] && HaveFields(rows)
    ensures forall i :: 0 <= i < |rows| ==> rows[i].fields.value.minProfit >= MinProfit(rows)
    ensures exists i :: 0 <= i < |rows| && rows[i].fields.value.minProfit == MinProfit(rows)
  {
    var n := |rows| - 1;
    if n > 0 {
      MinProfitIsLeast(rows[..n]);
      var i :| 0 <= i < n && rows[..n][i].fields.value.minProfit == MinProfit(rows[..n]);
      assert rows[i] == rows[..n][i];
      assert forall k :: 0 <= k < n ==> rows[k] == rows[..n][k];
    }
    assert rows[n] == rows[|rows| - 1];
  }

  /** Every candidate of the menu promises more than this menu's exact transaction costs. */
  predicate EveryCandidatePays(rows: seq<Row>, probe: Prober, cost: Coster)
    requires HaveFields(rows)
  {
    && Measured(rows, probe)
    && forall i :: 0 <= i < |rows| ==> rows[i].fields.value.minProfit > CostOf(rows, probe, cost)
  }

  lemma JudgesExactly(rows: seq<Row>, probe: Prober, cost: Coster)
    requires rows != [] && HaveFields(rows)
    ensures Judge(rows, probe, cost).Pays? <==> EveryCandidatePays(rows, probe, cost)
    ensures Judge(rows, probe, cost).Short? <==> Measured(rows, probe) && !EveryCandidatePays(rows, probe, cost)
    ensures Judge(rows, probe, cost).Blocked? <==> !Measured(rows, probe)
    ensures Judge(rows, probe, cost).Pays? ==>
              Judge(rows, probe, cost) == Pays(CostOf(rows, probe, cost), MinProfit(rows) - CostOf(rows, probe, cost))
  {
    hide MinProfit;
    MinProfitIsLeast(rows);
  }

  /** From n candidates on, every longer menu was measured and some candidate fell short. */
  predicate LongerFallShort(rows: seq<Row>, n: nat, probe: Prober, cost: Coster)
    requires HaveFields(rows)
  {
    forall m :: n < m <= |rows| ==> Measured(rows[..m], probe) && !EveryCandidatePays(rows[..m], probe, cost)
  }

  /** The first n candidates pay in full, and no longer menu stopped the loop. */
  predicate LongestPaying(rows: seq<Row>, n: nat, probe: Prober, cost: Coster)
    requires HaveFields(rows) && n <= |rows|
  {
    EveryCandidatePays(rows[..n], probe, cost) && LongerFallShort(rows, n, probe, cost)
  }

  /**
   The loop ends with an eligible plan exactly when some menu pays in full and every longer one was
   measured and fell short; the plan is that longest paying menu, with its cost and its worst net profit.
   */
  lemma {:induction false} EligibleExactly(rows: seq<Row>, trimmed: seq<nat>, probe: Prober, cost: Coster)
    requires HaveFields(rows)
    ensures Decide(rows, trimmed, probe, cost).eligible
            <==> exists n :: 1 <= n <= |rows| && LongestPaying(rows, n, probe, cost)
    ensures var plan := Decide(rows, trimmed, probe, cost);
            plan.eligible ==>
              && 1 <= |plan.menu| <= |rows| && plan.menu == rows[..|plan.menu|]
              && LongestPaying(rows, |plan.menu|, probe, cost)
              && plan.gasCost == Some(CostOf(plan.menu, probe, cost))
              && plan.net == Some(MinProfit(plan.menu) - CostOf(plan.menu, probe, cost))
    decreases |rows|
  {
    hide MinProfit, EveryCandidatePays, Measured, CostOf, Judge, LongestPaying;
    if rows != [] {
      JudgesExactly(rows, probe, cost);
      WholeMenu(rows, probe, cost);
      if Judge(rows, probe, cost).Short? {
        var n := |rows| - 1;
        EligibleExactly(rows[..n], trimmed + [rows[n].routeId], probe, cost);
        forall m: nat | m <= n
          ensures LongestPaying(rows, m, probe, cost) <==> LongestPaying(rows[..n], m, probe, cost)
          ensures rows[..n][..m] == rows[..m]
        {
          ShorterMenu(rows, m, probe, cost);
        }
      }
    }
  }

  /** The ids of the rows that were dropped behind the first n, the last row first. */
  ghost predicate DroppedBehind(ids: seq<nat>, rows: seq<Row>, n: nat) {
    n <= |rows| && |ids| == |rows| - n && forall i :: 0 <= i < |ids| ==> ids[i] == rows[|rows| - 1 - i].routeId
  }

  /** What stopped the loop at a menu that could not be measured. */
  predicate StoppedBy(p: Probe, reason: Reason) {
    match reason
    case SimulationRpcFailed => p.RpcFailed?
    case ExecutorSimulationFailed => p.SimulationFailed?
    case GasMeasurementMissing => p.Simulated? && p.simulatedGas.None? && p.estimatedGas.None?
    case _ => false
  }

  /**
   How a plan ends. An eligible one names the rows it dropped. Another has no cost and no net profit; it
   dropped every row since all menus fell short, or it kept the longest menu that could not be measured
   and says why, without naming what it had dropped.
   */
  lemma {:induction false} PlanOutcome(rows: seq<Row>, trimmed: seq<nat>, probe: Prober, cost: Coster)
    requires HaveFields(rows)
    ensures var plan := Decide(rows, trimmed, probe, cost);
            && (plan.eligible <==> plan.reason == None)
            && (plan.eligible ==>
                  |plan.trimmed| >= |trimmed| && plan.trimmed[..|trimmed|] == trimmed
                  && DroppedBehind(plan.trimmed[|trimmed|..], rows, |plan.menu|))
            && (!plan.eligible ==> plan.gasCost == None && plan.net == None)
            && (plan.reason == Some(NothingPays) ==>
                  && plan.menu == [] && LongerFallShort(rows, 0, probe, cost)
                  && |plan.trimmed| >= |trimmed| && plan.trimmed[..|trimmed|] == trimmed
                  && DroppedBehind(plan.trimmed[|trimmed|..], rows, 0))
            && (!plan.eligible && plan.reason != Some(NothingPays) ==>
                  && plan.menu != [] && plan.menu <= rows && plan.trimmed == []
                  && StoppedBy(probe(plan.menu), plan.reason.value) && LongerFallShort(rows, |plan.menu|, probe, cost))
    decreases |rows|
  {
    hide MinProfit, EveryCandidatePays, Measured, CostOf;
    if rows != [] {
      JudgesExactly(rows, probe, cost);
      BlockedBy(rows, probe, cost);
      hide Judge;
      if Judge(rows, probe, cost).Short? {
        var n := |rows| - 1;
        PlanOutcome(rows[..n], trimmed + [rows[n].routeId], probe, cost);
        LongerToo(rows, probe, cost);
        var plan := Decide(rows, trimmed, probe, cost);
        if plan.reason in {None, Some(NothingPays)} {
          OneMoreDropped(rows, trimmed, plan.trimmed, |plan.menu|);
        }
      }
    }
  }

  lemma BlockedBy(rows: seq<Row>, probe: Prober, cost: Coster)
    requires rows != [] && HaveFields(rows)
    ensures Judge(rows, probe, cost).Blocked? ==>
              Judge(rows, probe, cost).reason != NothingPays && StoppedBy(probe(rows), Judge(rows, probe, cost).reason)
  {
    hide MinProfit;
  }

  lemma OneMoreDropped(rows: seq<Row>, trimmed: seq<nat>, ids: seq<nat>, n: nat)
    requires rows != [] && n < |rows| && |ids| > |trimmed|
    requires var more := trimmed + [rows[|rows| - 1].routeId];
             ids[..|more|] == more && DroppedBehind(ids[|more|..], rows[..|rows| - 1], n)
    ensures ids[..|trimmed|] == trimmed && DroppedBehind(ids[|trimmed|..], rows, n)
  {
    var more := trimmed + [rows[|rows| - 1].routeId];
    assert ids[..|trimmed|] == ids[..|more|][..|trimmed|];
    assert ids[|trimmed|] == ids[..|more|][|trimmed|];
    assert ids[|trimmed|..] == [ids[|trimmed|]] + ids[|more|..];
  }

  lemma LongerToo(rows: seq<Row>, probe: Prober, cost: Coster)
    requires rows != [] && HaveFields(rows) && Measured(rows, probe) && !EveryCandidatePays(rows, probe, cost)
    ensures forall n: nat :: n < |rows| ==>
              (LongerFallShort(rows, n, probe, cost) <==> LongerFallShort(rows[..|rows| - 1], n, probe, cost))
  {
    hide EveryCandidatePays, Measured;
    var shorter := rows[..|rows| - 1];
    assert rows[..|rows|] == rows;
    assert forall k :: 0 <= k < |rows| ==> shorter[..k] == rows[..k];
  }

  /** Whether the whole menu pays, and that a menu which was not measured ends the search. */
  lemma WholeMenu(rows: seq<Row>, probe: Prober, cost: Coster)
    requires rows != [] && HaveFields(rows)
    ensures rows[..|rows|] == rows
    ensures LongestPaying(rows, |rows|, probe, cost) <==> EveryCandidatePays(rows, probe, cost)
    ensures !Measured(rows, probe) ==> forall m: nat :: m <= |rows| ==> !LongestPaying(rows, m, probe, cost)
    ensures EveryCandidatePays(rows, probe, cost) ==>
              forall m: nat :: m < |rows| ==> !LongestPaying(rows, m, probe, cost)
  {
    assert rows[..|rows|] == rows;
    assert !Measured(rows, probe) ==> !EveryCandidatePays(rows, probe, cost);
    hide EveryCandidatePays, Measured;
  }

  lemma ShorterMenu(rows: seq<Row>, m: nat, probe: Prober, cost: Coster)
    requires rows != [] && HaveFields(rows) && Measured(rows, probe) && !EveryCandidatePays(rows, probe, cost)
    requires m < |rows|
    ensures rows[..|rows| - 1][..m] == rows[..m]
    ensures LongestPaying(rows, m, probe, cost) <==> LongestPaying(rows[..|rows| - 1], m, probe, cost)
  {
    hide EveryCandidatePays, Measured;
    var n := |rows|;
    assert rows[..n] == rows;
    var shorter := rows[..n - 1];
    assert forall k :: 0 <= k < n ==> shorter[..k] == rows[..k];
  }
}
