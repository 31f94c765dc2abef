/**
 From the planner's menu to the chain: an eligible plan, encoded and committed by the contract,
 earns at least the fee it was priced with plus the net profit it reported.
 */
module PlannedBatch {
  import opened Bytes
  import opened PackedFormat
  import opened TokenLedger
  import opened ExecutorModel
  import opened ExecutorRuns
  import opened ExecutorLiveness
  import opened ExecutorCustody
  import opened ExecutorSafety
  import opened ExecutorValidation
  import opened Commitment
  import opened PlanExecution
  import Planner = BatchPlanner
  import Finalizer = BatchFinalizer
  import Graph = PoolGraph
  import Dedup = RingDedup
  import Quoting = RouteQuoting

  /** The batch of a menu: the first row's header over every row's candidate, with route ids as candidate ids. */
  function MenuBatch(menu: seq<Planner.Row>): (b: Batch)
    requires menu != [] && Finalizer.HaveFields(menu)
    ensures |b.candidates| == |menu|
    ensures forall i :: 0 <= i < |menu| ==>
              b.candidates[i] == Candidate(menu[i].routeId, menu[i].fields.value.minProfit, menu[i].fields.value.legs)
  {
    var first := menu[0].fields.value;
    Batch(first.asset, first.amount, first.targetBlock, first.deadline,
          seq(|menu|, i requires 0 <= i < |menu| =>
            Candidate(menu[i].routeId, menu[i].fields.value.minProfit, menu[i].fields.value.legs)))
  }

  /** The menu of an eligible plan speaks with one header: every row was priced for the batch's own terms. */
  lemma MenuSharesHeader(evaluations: seq<Planner.Row>, limit: int, n: nat)
    requires 1 <= n <= |Finalizer.TopMenu(evaluations, limit)|
    requires Finalizer.HaveFields(Finalizer.TopMenu(evaluations, limit))
    ensures var menu := Finalizer.TopMenu(evaluations, limit)[..n];
            var b := MenuBatch(menu);
            forall r :: r in menu ==>
              Planner.Usable(r) && Planner.KeyOf(r) == Planner.Key(b.asset, b.amount, b.targetBlock, b.deadline)
  {
    hide Finalizer.TopMenu, Planner.RankedGroups, Planner.Usable;
    Finalizer.TopMenuUsable(evaluations, limit);
    var top := Finalizer.TopMenu(evaluations, limit);
    var k :| Finalizer.FromOneGroup(top, evaluations, k);
    var menu := top[..n];
    assert forall r :: r in menu ==> r in top;
    assert menu[0] in menu;
  }

  /**
   Whichever candidate the contract selects, a committed plan leaves the contract with at least the
   priced fee plus the reported net profit on top of what it held.
   */
  lemma EligiblePlanEarns(
      evaluations: seq<Planner.Row>, limit: int, probe: Finalizer.Prober, cost: Finalizer.Coster,
      c: Chain, sender: Address, premiumBps: nat, market: Market, w: World)
    requires Finalizer.HaveFields(Finalizer.TopMenu(evaluations, limit))
    requires Finalizer.Decide(Finalizer.TopMenu(evaluations, limit), [], probe, cost).eligible
    requires var menu := Finalizer.Decide(Finalizer.TopMenu(evaluations, limit), [], probe, cost).menu;
             menu != [] && Finalizer.HaveFields(menu) && WellFormed(MenuBatch(menu))
    requires c.honest && c.self != c.pool && Invariant(c, w)
    ensures var plan := Finalizer.Decide(Finalizer.TopMenu(evaluations, limit), [], probe, cost);
            var b := MenuBatch(plan.menu);
            var r := DoStartPacked(c, sender, Encode(b), HonestPool(premiumBps, market), w);
            && plan.gasCost.Some? && plan.net.Some? && plan.net.value > 0
            && (r.Ok? ==>
                  Bal(r.world.ledger, b.asset, c.self)
                      >= Bal(w.ledger, b.asset, c.self) + plan.gasCost.value + plan.net.value)
  {
    hide Finalizer.TopMenu, Finalizer.Decide, Bal, Encode, Invariant, DoStartPacked, ParseBatch, WellFormed,
         StartPackedError, PackedEffect, Finalizer.MinProfit, Finalizer.CostOf, MenuBatch, DoAttempt, Transfer,
         Attempting, Premium;
    var top := Finalizer.TopMenu(evaluations, limit);
    var plan := Finalizer.Decide(top, [], probe, cost);
    Finalizer.EligibleExactly(top, [], probe, cost);
    Finalizer.MinProfitIsLeast(plan.menu);
    assert Finalizer.EveryCandidatePays(plan.menu, probe, cost);
    var b := MenuBatch(plan.menu);
    ParseEncode(b);
    var r := DoStartPacked(c, sender, Encode(b), HonestPool(premiumBps, market), w);
    if r.Ok? {
      CommittedPassed(c, sender, Encode(b), HonestPool(premiumBps, market), w);
      PackedCommitsIffAttempt(c, sender, Encode(b), premiumBps, market, w);
      EffectPaysSomeCandidate(c, b, Premium(b.amount, premiumBps), market,
          Attempting(c, Encode(b), b.asset, b.amount, w), w, r.world);
    }
  }

  lemma EffectPaysSomeCandidate(c: Chain, b: Batch, premium: nat, market: Market, v: World, w: World, w': World)
    requires PackedEffect(c, b, premium, market, v, w, w')
    ensures exists k :: 0 <= k < |b.candidates| &&
              Bal(w'.ledger, b.asset, c.self) >= Bal(w.ledger, b.asset, c.self) + b.candidates[k].minProfit
  {
    hide DoAttempt, Bal, PaidBack;
    var k: nat :| PackedChoice(c, b, premium, market, v, k) && PackedChange(c, b, premium, market, v, k, w, w');
  }

  /** The premium that planner and pool compute alike is the exact share to the nearest unit, halves rounded up. */
  lemma PremiumIsNearest(amount: nat, premiumBps: nat)
    ensures var exact, premium := amount * premiumBps, Premium(amount, premiumBps);
            exact - 5000 < 10000 * premium <= exact + 5000
  {
    assert (amount * premiumBps + 5000) / 10000 * 10000 <= amount * premiumBps + 5000;
  }

  /** Candidate k was planned from these chained quotes, with the premium this pool will charge. */
  predicate PlannedFrom(b: Batch, k: nat, quotes: seq<nat>, premium: nat) {
    && k < |b.candidates| && |quotes| == |b.candidates[k].legs|
    && ClosedWalk(b.asset, b.candidates[k].legs)
    && (forall i :: 0 <= i < |quotes| ==> b.candidates[k].legs[i].minOut == quotes[i] && quotes[i] > 0)
    && quotes[|quotes| - 1] == b.amount + premium + b.candidates[k].minProfit
  }

  /** A cycle that starts and ends with one token, passes it nowhere in between, and never stands still. */
  predicate RingTokens(tokens: seq<Address>) {
    && |tokens| >= 3 && tokens[0] == tokens[|tokens| - 1]
    && (forall i :: 0 < i < |tokens| - 1 ==> tokens[i] != tokens[0])
    && (forall i :: 0 <= i < |tokens| - 1 ==> tokens[i] != tokens[i + 1])
  }

  /** Every cycle that the search enumerates over pools of two tokens is such a cycle. */
  lemma EnumeratedCyclesAreRings(cycle: Graph.Cycle, pools: Graph.Pools, starts: set<Graph.Address>, maxHops: int)
    requires Graph.Enumerated(cycle, pools, starts, maxHops)
    requires forall a :: a in pools ==> !Dedup.Degenerate(pools[a])
    ensures RingTokens(cycle.tokens)
  {
    hide Graph.Other;
    assert forall i :: 0 <= i < |cycle.pools| ==> !Dedup.Degenerate(cycle.pools[i]);
    Dedup.OtherTrades(cycle.pools[0], cycle.tokens[0], cycle.tokens[1]);
    Dedup.OtherTrades(cycle.pools[1], cycle.tokens[1], cycle.tokens[2]);
    if |cycle.pools| == 3 {
      Dedup.OtherTrades(cycle.pools[2], cycle.tokens[2], cycle.tokens[3]);
    }
  }

  /** The outputs of a chain of quotes, which become the minimum outputs of the planned legs. */
  function Outputs(quotes: seq<Quoting.Quote>): seq<nat> {
    seq(|quotes|, i requires 0 <= i < |quotes| => quotes[i].amountOut)
  }

  /**
   What the planner builds from such a cycle, the chain of quotes for the batch's amount and the premium
   of the loan is a planned candidate exactly when no quote is zero: its minimum outputs are the chained
   quotes, the last of them the route's output, and it passes the asset nowhere midway.
   */
  lemma {:induction false} CandidateIsPlanned(
      b: Batch, k: nat, id: nat, tokens: seq<Address>, hops: seq<Hop>, q: Quoting.Quoter, premium: nat)
    requires |tokens| == |hops| + 1 && RingTokens(tokens) && b.asset == tokens[0] && k < |b.candidates|
    requires Quoting.ChainQuote(q, b.amount, |hops|).Some?
    requires var chain := Quoting.ChainQuote(q, b.amount, |hops|).value;
             PlannedCandidate(id, tokens, hops, Outputs(chain.1), b.amount, chain.0, Some(premium))
                 == Some(b.candidates[k])
    ensures var outputs := Outputs(Quoting.ChainQuote(q, b.amount, |hops|).value.1);
            && (PlannedFrom(b, k, outputs, premium) <==> forall i :: 0 <= i < |outputs| ==> outputs[i] > 0)
            && AvoidsAsset(b.asset, b.candidates[k].legs)
            && |b.candidates[k].legs| == |hops|
            && forall i :: 0 <= i < |hops| ==>
                 && hops[i].adapter.Some?
                 && b.candidates[k].legs[i]
                    == Leg(hops[i].adapter.value, tokens[i], tokens[i + 1],
                           Quoting.ChainQuote(q, b.amount, |hops|).value.1[i].amountOut, hops[i].data)
  {
    hide PlannedLegs, ClosedWalk, AvoidsAsset, Quoting.ChainQuote;
    var chain := Quoting.ChainQuote(q, b.amount, |hops|).value;
    var outputs := Outputs(chain.1);
    Quoting.ChainLinksExactly(q, b.amount, |hops|, chain);
    assert outputs[|outputs| - 1] == chain.0;
    PlannedLegsAre(tokens, hops, outputs);
    var legs := PlannedLegs(tokens, hops, outputs);
    assert legs == b.candidates[k].legs;
    forall i | 0 <= i < |legs|
      ensures legs[i].tokenIn == tokens[i] && legs[i].tokenOut == tokens[i + 1] && legs[i].minOut == outputs[i]
    {
      assert legs[i] == Leg(hops[i].adapter.value, tokens[i], tokens[i + 1], outputs[i], hops[i].data);
    }
    RingFollows(tokens, legs);
  }

  lemma PlannedLegsAre(tokens: seq<Address>, hops: seq<Hop>, quotes: seq<nat>)
    requires |tokens| == |hops| + 1 && |quotes| == |hops| && forall i :: 0 <= i < |hops| ==> hops[i].adapter.Some?
    ensures var legs := PlannedLegs(tokens, hops, quotes);
            && |legs| == |hops|
            && forall i :: 0 <= i < |legs| ==>
                 legs[i] == Leg(hops[i].adapter.value, tokens[i], tokens[i + 1], quotes[i], hops[i].data)
  {
  }

  lemma RingFollows(tokens: seq<Address>, legs: seq<Leg>)
    requires RingTokens(tokens) && |tokens| == |legs| + 1
    requires forall i :: 0 <= i < |legs| ==> legs[i].tokenIn == tokens[i] && legs[i].tokenOut == tokens[i + 1]
    ensures ClosedWalk(tokens[0], legs) && AvoidsAsset(tokens[0], legs)
  {
    var n := |legs|;
    assert legs[n - 1].tokenOut == tokens[n] == tokens[0];
    forall i | 0 <= i < n - 1
      ensures legs[i].tokenOut == legs[i + 1].tokenIn && legs[i].tokenOut != tokens[0]
    {
      assert legs[i].tokenOut == tokens[i + 1] && legs[i + 1].tokenIn == tokens[i + 1];
    }
    forall i | 0 <= i < n
      ensures legs[i].tokenIn != legs[i].tokenOut
    {
      assert tokens[i] != tokens[i + 1];
    }
  }

  /** The funded world of a packed operation is locked, closed, conserved, and clean between its tokens. */
  lemma FundedWorld(c: Chain, sender: Address, packed: seq<Byte>, w: World)
    requires c.honest && c.self != c.pool && Invariant(c, w) && StartPackedError(c, sender, packed, w).None?
    requires ParseBatch(packed).Success?
    requires Transfer(w.ledger, ParseBatch(packed).value.asset, c.pool, c.self, ParseBatch(packed).value.amount).Some?
    ensures var b := ParseBatch(packed).value;
            var v := Attempting(c, packed, b.asset, b.amount, w);
            && BatchAccepted(w.store, b)
            && Locked(v.store) && v.store.activeBatchHash != ZeroHash && Closed(c, v.ledger) && Conserved(v.ledger)
            && Bal(v.ledger, b.asset, c.self) == Bal(w.ledger, b.asset, c.self) + b.amount
            && forall k :: 0 <= k < |b.candidates| ==> Clean(v.ledger, c.self, b.asset, b.candidates[k].legs)
  {
    hide Bal, Conserved, Transfer, Closed, PoolAtRest, Logged, ParseBatch, StartPackedError, BatchAccepted, Clean;
    StartPackedIsClean(c, sender, packed, w);
    var b := ParseBatch(packed).value;
    CleanAfterLoan(c, w.ledger, b.asset, b.amount, RawParams(packed));
  }

  /**
   A menu holding a planned candidate whose adapters deliver its quotes commits, whatever the other
   candidates do; so an eligible plan whose quotes still hold earns its reported net. A candidate that
   passes the asset midway is covered when the contract holds none of the asset beforehand.
   */
  lemma PlannedMenuCommits(
      c: Chain, sender: Address, b: Batch, k: nat, quotes: seq<nat>, premiumBps: nat, market: Market, w: World)
    requires c.honest && c.self != c.pool && Invariant(c, w) && WellFormed(b)
    requires StartPackedError(c, sender, Encode(b), w).None? && Fundable(c, premiumBps, b.asset, b.amount, w.ledger)
    requires PlannedFrom(b, k, quotes, Premium(b.amount, premiumBps))
    requires AvoidsAsset(b.asset, b.candidates[k].legs) || Bal(w.ledger, b.asset, c.self) == 0
    requires Transfer(w.ledger, b.asset, c.pool, c.self, b.amount).Some?
    requires Delivers(c, market, b.candidates[k].legs, quotes, 0, b.amount,
             Attempting(c, Encode(b), b.asset, b.amount, w))
    ensures DoStartPacked(c, sender, Encode(b), HonestPool(premiumBps, market), w).Ok?
  {
    hide Bal, Conserved, Transfer, Closed, Encode, Invariant, ParseBatch, WellFormed, StartPackedError, Attempting,
         Delivers, DoAttempt, DoStartPacked, Premium, PackedEffect, Fundable, Locked, Clean, AvoidsAsset, ClosedWalk;
    ParseEncode(b);
    PackedCommitsIffAttempt(c, sender, Encode(b), premiumBps, market, w);
    FundedWorld(c, sender, Encode(b), w);
    var v := Attempting(c, Encode(b), b.asset, b.amount, w);
    assert CandidateAccepted(w.store, b.asset, b.candidates[k]) && b.amount != 0;
    QuotedDeliveryGainsPlannedProfit(c, market, b.candidates[k], b.asset, b.amount, Premium(b.amount, premiumBps),
        quotes, v);
  }
}
