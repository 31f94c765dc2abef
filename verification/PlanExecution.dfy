/**
 From the planner's candidate to the chain. A candidate built from chained quotes is run leg by
 leg, with adapters that spend exactly their input. A leg takes what the leg before delivered, and
 with it the spare asset where the route passes the asset midway. Both are followed here, and the
 exact condition under which an attempt succeeds is given for every route.
 */
module PlanExecution {
  import opened Bytes
  import opened PackedFormat
  import opened TokenLedger
  import opened Commitment
  import opened ExecutorModel
  import opened ExecutorSafety
  import opened ExecutorCustody
  import opened ExecutorValidation

  /** A hop of the planned cycle: the configured adapter, if any, and its encoded data. */
  datatype Hop = Hop(adapter: Option<Address>, data: seq<Byte>)

  function PlannedLegs(tokens: seq<Address>, hops: seq<Hop>, quotes: seq<nat>): seq<Leg>
    requires |tokens| == |hops| + 1 && |quotes| == |hops|
    requires forall i :: 0 <= i < |hops| ==> hops[i].adapter.Some?
  {
    seq(|hops|, i requires 0 <= i < |hops| => Leg(hops[i].adapter.value, tokens[i], tokens[i + 1], quotes[i],
        hops[i].data))
  }

  /**
   The candidate that is planned for a cycle, or none without an adapter for every hop and a profit after the premium.
   */
  function PlannedCandidate(
      id: nat, tokens: seq<Address>, hops: seq<Hop>, quotes: seq<nat>, amountIn: nat, amountOut: nat,
      premium: Option<nat>)
    : Option<Candidate>
    requires |tokens| == |hops| + 1 && |quotes| == |hops|
  {
    if premium.None? || !(forall i :: 0 <= i < |hops| ==> hops[i].adapter.Some?)
        || amountOut <= amountIn + premium.value
    then None
    else Some(Candidate(id, amountOut - amountIn - premium.value, PlannedLegs(tokens, hops, quotes)))
  }

  /** packed_candidate_dict. */
  method PlanCandidate(
      id: nat, tokens: seq<Address>, hops: seq<Hop>, quotes: seq<nat>, amountIn: nat, amountOut: nat,
      premium: Option<nat>)
    returns (r: Option<Candidate>)
    requires |tokens| == |hops| + 1 && |quotes| == |hops|
    ensures r.Some? <==>
              && premium.Some? && amountOut > amountIn + premium.value
              && (forall i :: 0 <= i < |hops| ==> hops[i].adapter.Some?)
    ensures r.Some? ==>
              && r.value.candidateId == id && r.value.minProfit == amountOut - amountIn - premium.value
              && |r.value.legs| == |hops|
              && forall i :: 0 <= i < |hops| ==>
                   r.value.legs[i] == Leg(hops[i].adapter.value, tokens[i], tokens[i + 1], quotes[i], hops[i].data)
    ensures r == PlannedCandidate(id, tokens, hops, quotes, amountIn, amountOut, premium)
  {
    if premium.None? { return None; }
    var legs: seq<Leg> := [];
    for i := 0 to |hops|
      invariant forall k :: 0 <= k < i ==> hops[k].adapter.Some?
      invariant |legs| == i
      invariant forall k :: 0 <= k < i ==>
                  legs[k] == Leg(hops[k].adapter.value, tokens[k], tokens[k + 1], quotes[k], hops[k].data)
    {
      if hops[i].adapter.None? { return None; }
      legs := legs + [Leg(hops[i].adapter.value, tokens[i], tokens[i + 1], quotes[i], hops[i].data)];
    }
    var minProfit := amountOut - amountIn - premium.value;
    if minProfit <= 0 { return None; }
    assert legs == PlannedLegs(tokens, hops, quotes);
    return Some(Candidate(id, minProfit, legs));
  }

  // ---- exact-input adapters ----

  /** The contract's balances move by exactly this swap: x of tokenIn out, d of tokenOut in. */
  ghost predicate ExactSwap(c: Chain, leg: Leg, x: nat, d: nat, l: Ledger, l': Ledger) {
    && Bal(l', leg.tokenIn, c.self) == Bal(l, leg.tokenIn, c.self) - x
    && Bal(l', leg.tokenOut, c.self) == Bal(l, leg.tokenOut, c.self) + d
    && forall t: Address :: t != leg.tokenIn && t != leg.tokenOut ==> Bal(l', t, c.self) == Bal(l, t, c.self)
  }

  /**
   Asked from leg i on, the market's adapters swap exactly what the contract sends and report what they
   deliver, d[i] at leg i.
   */
  ghost predicate Delivers(c: Chain, market: Market, legs: seq<Leg>, d: seq<nat>, i: nat, amount: nat, w: World)
    requires |d| == |legs|
    decreases |legs| - i
  {
    i < |legs| && LegInput(c, legs, i, amount, w) > 0 ==>
      var x := LegInput(c, legs, i, amount, w);
      var approved := ForceApprove(c, market, legs[i].tokenIn, legs[i].adapter, x, w);
      approved.Ok? &&
      var swapped := RunSwap(c, market, SwapOf(c, legs[i], x), approved.world);
      && swapped.Ok? && swapped.value == d[i]
      && ExactSwap(c, legs[i], x, d[i], approved.world.ledger, swapped.world.ledger)
      && var reset := ForceApprove(c, market, legs[i].tokenIn, legs[i].adapter, 0, swapped.world);
         reset.Ok? && Delivers(c, market, legs, d, i + 1, amount, reset.world)
  }

  /** A closed chain from the asset to the asset whose legs trade different tokens; it may pass the asset midway. */
  predicate ClosedWalk(asset: Address, legs: seq<Leg>) {
    && |legs| >= 2 && legs[0].tokenIn == asset && legs[|legs| - 1].tokenOut == asset && Chained(legs)
    && (forall i :: 0 <= i < |legs| ==> legs[i].tokenIn != legs[i].tokenOut)
  }

  /** No leg but the last delivers the asset. */
  predicate AvoidsAsset(asset: Address, legs: seq<Leg>) {
    forall i :: 0 <= i < |legs| - 1 ==> legs[i].tokenOut != asset
  }

  // ---- what the contract holds along the chain ----

  /** The token that is held to be spent before leg i, or after the last leg. */
  function Standing(asset: Address, legs: seq<Leg>, i: nat): Address {
    if i < |legs| then legs[i].tokenIn else asset
  }

  /** Some leg before i, not the first, started from the asset and so took all of it. */
  predicate SpentAsset(asset: Address, legs: seq<Leg>, i: nat) {
    exists k :: 0 < k < i && k < |legs| && legs[k].tokenIn == asset
  }

  /**
   What is left of a token beside the running amount: of the asset what was spare before the loan, until a leg takes
   it along.
   */
  function Rest(asset: Address, legs: seq<Leg>, i: nat, t: Address, spare: nat): nat {
    if t == asset && !SpentAsset(asset, legs, i) then spare else 0
  }

  /**
   Before leg i the contract holds x of the standing token to go on with, and of every token of the chain its rest.
   */
  ghost predicate Holding(c: Chain, asset: Address, legs: seq<Leg>, i: nat, x: nat, spare: nat, l: Ledger) {
    forall k :: 0 <= k < |legs| ==>
      Bal(l, legs[k].tokenOut, c.self)
      == Rest(asset, legs, i, legs[k].tokenOut, spare) + if legs[k].tokenOut == Standing(asset, legs, i) then x else 0
  }

  /** A closed walk on clean intermediates begins with the loan standing on top of the spare asset. */
  lemma HoldingAtStart(c: Chain, asset: Address, legs: seq<Leg>, amount: nat, l: Ledger)
    requires ClosedWalk(asset, legs) && Clean(l, c.self, asset, legs) && Bal(l, asset, c.self) >= amount
    ensures Holding(c, asset, legs, 0, amount, Bal(l, asset, c.self) - amount, l)
  {
    hide Bal;
  }

  lemma StandingIsDelivered(asset: Address, legs: seq<Leg>, i: nat)
    requires ClosedWalk(asset, legs) && i < |legs|
    ensures Standing(asset, legs, i) == legs[i].tokenIn && Standing(asset, legs, i + 1) == legs[i].tokenOut
    ensures exists k :: 0 <= k < |legs| && legs[k].tokenOut == legs[i].tokenIn
    ensures SpentAsset(asset, legs, i + 1) <==> SpentAsset(asset, legs, i) || (i > 0 && legs[i].tokenIn == asset)
  {
    if i > 0 {
      assert legs[i - 1].tokenOut == legs[i].tokenIn;
    }
  }

  /** One exact leg moves the holding on: what it spends is gone whole, what it delivers is the next amount. */
  lemma HoldingMoves(
      c: Chain, asset: Address, legs: seq<Leg>, i: nat, x: nat, spare: nat, d: nat, input: nat, l: Ledger, l': Ledger)
    requires i < |legs| && ClosedWalk(asset, legs) && Holding(c, asset, legs, i, x, spare, l)
    requires input == if i == 0 then x else Bal(l, legs[i].tokenIn, c.self)
    requires ExactSwap(c, legs[i], input, d, l, l')
    ensures Holding(c, asset, legs, i + 1, d, spare, l')
  {
    StandingIsDelivered(asset, legs, i);
    hide Bal, SpentAsset, Standing, Chained;
  }

  // ---- the chain ----

  /** The amount that is handed to leg i: the loan, or what the leg before delivered. */
  function Prior(d: seq<nat>, amount: nat, i: nat): nat
    requires i <= |d|
  {
    if i == 0 then amount else d[i - 1]
  }

  /** What leg i takes: the amount handed to it, and with it whatever rest there is of its token. */
  function Takes(asset: Address, legs: seq<Leg>, d: seq<nat>, amount: nat, spare: nat, i: nat): nat
    requires |d| == |legs| && i < |legs|
  {
    Prior(d, amount, i) + if i == 0 then 0 else Rest(asset, legs, i, legs[i].tokenIn, spare)
  }

  /** From leg i on, every leg has something to spend and every delivery meets its quote. */
  predicate GoesThrough(asset: Address, legs: seq<Leg>, d: seq<nat>, amount: nat, spare: nat, i: nat)
    requires |d| == |legs|
  {
    forall k :: i <= k < |legs| ==> Takes(asset, legs, d, amount, spare, k) > 0 && d[k] >= legs[k].minOut
  }

  /**
   One leg with an exact adapter: what it takes, and that it goes through exactly when the delivery meets the quote.
   */
  lemma ExactLeg(
      c: Chain, market: Market, asset: Address, legs: seq<Leg>, d: seq<nat>, i: nat, amount: nat, spare: nat, w: World)
    requires c.honest && |d| == |legs| && i < |legs| && ClosedWalk(asset, legs)
    requires Delivers(c, market, legs, d, i, amount, w)
    requires Holding(c, asset, legs, i, Prior(d, amount, i), spare, w.ledger)
    ensures var x, r := LegInput(c, legs, i, amount, w), RunLeg(c, market, legs, i, amount, w);
            && x == Takes(asset, legs, d, amount, spare, i)
            && (r.Ok? <==> x > 0 && d[i] >= legs[i].minOut)
            && (x > 0 && d[i] < legs[i].minOut ==> r == Fail(SwapOutputMismatch(i)))
            && (r.Ok? ==>
                  && ExactSwap(c, legs[i], x, d[i], w.ledger, r.world.ledger)
                  && Delivers(c, market, legs, d, i + 1, amount, r.world)
                  && Holding(c, asset, legs, i + 1, d[i], spare, r.world.ledger))
  {
    hide Bal, Allowed, ForceApprove, RunSwap, Conserved, Holding, Rest, SpentAsset, Chained;
    var x := LegInput(c, legs, i, amount, w);
    StandingHeld(c, asset, legs, i, Prior(d, amount, i), spare, w.ledger);
    if x > 0 {
      HonestForceApprove(c, market, legs[i].tokenIn, legs[i].adapter, x, w);
      var w1 := ForceApprove(c, market, legs[i].tokenIn, legs[i].adapter, x, w).world;
      var w2 := RunSwap(c, market, SwapOf(c, legs[i], x), w1).world;
      HonestForceApprove(c, market, legs[i].tokenIn, legs[i].adapter, 0, w2);
      var w3 := ForceApprove(c, market, legs[i].tokenIn, legs[i].adapter, 0, w2).world;
      HoldingMoves(c, asset, legs, i, Prior(d, amount, i), spare, d[i], x, w.ledger, w3.ledger);
    }
  }

  lemma StandingHeld(c: Chain, asset: Address, legs: seq<Leg>, i: nat, x: nat, spare: nat, l: Ledger)
    requires i < |legs| && ClosedWalk(asset, legs) && Holding(c, asset, legs, i, x, spare, l)
    ensures Bal(l, legs[i].tokenIn, c.self) == Rest(asset, legs, i, legs[i].tokenIn, spare) + x
  {
    hide Bal, Rest, SpentAsset, Chained;
    StandingIsDelivered(asset, legs, i);
  }

  /** The rest of the chain goes through exactly when every leg can spend something and every quote is met. */
  lemma {:induction false} ExactChain(
      c: Chain, market: Market, asset: Address, legs: seq<Leg>, d: seq<nat>, i: nat, amount: nat, spare: nat, w: World)
    requires c.honest && |d| == |legs| && i <= |legs| && ClosedWalk(asset, legs)
    requires Delivers(c, market, legs, d, i, amount, w)
    requires Holding(c, asset, legs, i, Prior(d, amount, i), spare, w.ledger)
    ensures var r := ExecuteLegs(c, market, legs, i, amount, w);
            && (r.Ok? <==> GoesThrough(asset, legs, d, amount, spare, i))
            && (r.Ok? ==> Holding(c, asset, legs, |legs|, Prior(d, amount, |legs|), spare, r.world.ledger))
    decreases |legs| - i
  {
    hide Bal, RunLeg, Delivers, Holding, ClosedWalk, Takes, LegInput, ExactSwap;
    if i == |legs| {
    } else {
      ExactLeg(c, market, asset, legs, d, i, amount, spare, w);
      var r := RunLeg(c, market, legs, i, amount, w);
      if r.Ok? {
        ExactChain(c, market, asset, legs, d, i + 1, amount, spare, r.world);
      }
    }
  }

  // ---- when every leg spends exactly what the leg before delivered ----

  /** The world that leg i finds: what the legs before it leave. */
  function Reach(c: Chain, market: Market, legs: seq<Leg>, i: nat, amount: nat, w: World): Outcome
    requires i <= |legs|
  {
    if i == 0 then Ok(w, 1)
    else
      match Reach(c, market, legs, i - 1, amount, w)
      case Fail(e) => Fail(e)
      case Ok(w', _) => RunLeg(c, market, legs, i - 1, amount, w')
  }

  /** Reach splits a run of the chain at leg i. */
  lemma {:induction false} ReachSplits(c: Chain, market: Market, legs: seq<Leg>, i: nat, amount: nat, w: World)
    requires i <= |legs|
    ensures var r := Reach(c, market, legs, i, amount, w);
            ExecuteLegs(c, market, legs, 0, amount, w)
            == if r.Ok? then ExecuteLegs(c, market, legs, i, amount, r.world) else Fail(r.error)
  {
    hide RunLeg;
    if i == 0 {
    } else {
      ReachSplits(c, market, legs, i - 1, amount, w);
    }
  }

  /** Along the run every leg finds the holding that is due, and takes it. */
  lemma {:induction false} ReachHolds(
      c: Chain, market: Market, asset: Address, legs: seq<Leg>, d: seq<nat>, i: nat, amount: nat, w: World)
    requires c.honest && |d| == |legs| && i <= |legs| && ClosedWalk(asset, legs)
    requires Clean(w.ledger, c.self, asset, legs) && Bal(w.ledger, asset, c.self) >= amount
    requires Delivers(c, market, legs, d, 0, amount, w) && Reach(c, market, legs, i, amount, w).Ok?
    ensures var v, spare := Reach(c, market, legs, i, amount, w).world, Bal(w.ledger, asset, c.self) - amount;
            && Delivers(c, market, legs, d, i, amount, v)
            && Holding(c, asset, legs, i, Prior(d, amount, i), spare, v.ledger)
            && (i < |legs| ==> LegInput(c, legs, i, amount, v) == Takes(asset, legs, d, amount, spare, i))
  {
    hide Bal, RunLeg, Delivers, Holding, ClosedWalk, Takes, LegInput, ExactSwap, Clean;
    var spare := Bal(w.ledger, asset, c.self) - amount;
    if i == 0 {
      HoldingAtStart(c, asset, legs, amount, w.ledger);
    } else {
      ReachHolds(c, market, asset, legs, d, i - 1, amount, w);
      ExactLeg(c, market, asset, legs, d, i - 1, amount, spare, Reach(c, market, legs, i - 1, amount, w).world);
    }
    if i < |legs| {
      ExactLeg(c, market, asset, legs, d, i, amount, spare, Reach(c, market, legs, i, amount, w).world);
    }
  }

  /** Leg i spends exactly what the leg before it delivered. */
  predicate SpendsDelivery(c: Chain, market: Market, legs: seq<Leg>, d: seq<nat>, i: nat, amount: nat, w: World)
    requires 0 < i < |legs| == |d|
  {
    var r := Reach(c, market, legs, i, amount, w);
    r.Ok? && LegInput(c, legs, i, amount, r.world) == d[i - 1]
  }

  lemma {:induction false} FirstPass(asset: Address, legs: seq<Leg>, i: nat) returns (k: nat)
    requires 0 < i < |legs| && legs[i].tokenIn == asset
    ensures 0 < k <= i && legs[k].tokenIn == asset && !SpentAsset(asset, legs, k)
  {
    if SpentAsset(asset, legs, i) {
      var j: nat :| 0 < j < i && legs[j].tokenIn == asset;
      k := FirstPass(asset, legs, j);
    } else {
      k := i;
    }
  }

  /**
   A chain that goes through passes on exactly what was delivered, leg by leg, if and only if it
   passes the asset nowhere midway or the contract held none of the asset beside the loan.
   */
  lemma ChainsExactly(
      c: Chain, market: Market, asset: Address, legs: seq<Leg>, d: seq<nat>, amount: nat, w: World)
    requires c.honest && |d| == |legs| && ClosedWalk(asset, legs)
    requires Clean(w.ledger, c.self, asset, legs) && Bal(w.ledger, asset, c.self) >= amount
    requires Delivers(c, market, legs, d, 0, amount, w) && ExecuteLegs(c, market, legs, 0, amount, w).Ok?
    ensures (forall i :: 0 < i < |legs| ==> SpendsDelivery(c, market, legs, d, i, amount, w))
       <==> AvoidsAsset(asset, legs) || Bal(w.ledger, asset, c.self) == amount
  {
    hide Bal, Delivers, Clean, Reach, LegInput, ExecuteLegs, SpentAsset, ClosedWalk;
    var spare := Bal(w.ledger, asset, c.self) - amount;
    forall i | 0 < i < |legs|
      ensures SpendsDelivery(c, market, legs, d, i, amount, w) <==> Rest(asset, legs, i, legs[i].tokenIn, spare) == 0
    {
      ReachSplits(c, market, legs, i, amount, w);
      ReachHolds(c, market, asset, legs, d, i, amount, w);
    }
    AvoidsByInputs(asset, legs);
    if !AvoidsAsset(asset, legs) {
      var i :| 0 < i < |legs| && legs[i].tokenIn == asset;
      var k := FirstPass(asset, legs, i);
      assert SpendsDelivery(c, market, legs, d, k, amount, w) <==> spare == 0;
    }
  }

  lemma AvoidsByInputs(asset: Address, legs: seq<Leg>)
    requires ClosedWalk(asset, legs)
    ensures AvoidsAsset(asset, legs) <==> forall i :: 0 < i < |legs| ==> legs[i].tokenIn != asset
    ensures AvoidsAsset(asset, legs) ==> forall i :: !SpentAsset(asset, legs, i)
  {
    if AvoidsAsset(asset, legs) {
      forall i | 0 < i < |legs|
        ensures legs[i].tokenIn != asset
      {
        assert legs[i - 1].tokenOut != asset;
      }
    } else {
      var i :| 0 <= i < |legs| - 1 && legs[i].tokenOut == asset;
      assert legs[i + 1].tokenIn == asset;
    }
  }

  // ---- attempts ----

  /**
   An attempt with exact-input adapters on clean intermediates, whatever route: it succeeds exactly when
   every leg has something to spend, every quote is met, and the last delivery, with what is left of
   the spare asset, covers what the contract held, the premium and the profit.
   */
  lemma AttemptExactly(
      c: Chain, market: Market, candidate: Candidate, asset: Address, amount: nat, premium: nat, d: seq<nat>, w: World)
    requires c.honest && Locked(w.store) && w.store.activeBatchHash != ZeroHash
    requires Closed(c, w.ledger) && Conserved(w.ledger)
    requires ClosedWalk(asset, candidate.legs) && |d| == |candidate.legs| <= MAX_PACKED_LEGS
    requires Clean(w.ledger, c.self, asset, candidate.legs) && Bal(w.ledger, asset, c.self) >= amount
    requires Delivers(c, market, candidate.legs, d, 0, amount, w)
    ensures var r := DoAttempt(c, c.self, candidate, asset, amount, premium, market, w);
            var spare := Bal(w.ledger, asset, c.self) - amount;
            var ending := Rest(asset, candidate.legs, |d|, asset, spare) + d[|d| - 1];
            && (r.Ok? <==>
                  && GoesThrough(asset, candidate.legs, d, amount, spare, 0)
                  && ending >= Bal(w.ledger, asset, c.self) + premium + candidate.minProfit)
            && (r.Ok? ==> Bal(r.world.ledger, asset, c.self) == ending)
  {
    hide Bal, Allowed, Conserved, ExecuteLegs, Delivers, Closed, LegsKept, Supply, Sum, GoesThrough, Clean, Rest,
         Chained;
    var legs, spare := candidate.legs, Bal(w.ledger, asset, c.self) - amount;
    HoldingAtStart(c, asset, legs, amount, w.ledger);
    ExactChain(c, market, asset, legs, d, 0, amount, spare, w);
    LegsKeep(c, market, legs, 0, amount, w);
    var r := ExecuteLegs(c, market, legs, 0, amount, w);
    if r.Ok? {
      KeptConserved(c, legs, w.ledger, r.world.ledger);
      BalanceFitsWord(r.world.ledger, asset, c.self);
      assert Standing(asset, legs, |legs|) == legs[|legs| - 1].tokenOut;
    }
  }

  lemma KeptConserved(c: Chain, legs: seq<Leg>, l: Ledger, l': Ledger)
    requires LegsKept(c, TokensIn(legs, 0), l, l') && Conserved(l)
    ensures Conserved(l')
  {
    hide Bal, Allowed, Conserved, Closed;
  }

  /** Where the chain passes on exactly what was delivered, deliveries alone decide, and the spare asset stays. */
  lemma PassingOn(asset: Address, legs: seq<Leg>, d: seq<nat>, amount: nat, spare: nat)
    requires ClosedWalk(asset, legs) && |d| == |legs| && amount > 0
    requires AvoidsAsset(asset, legs) || spare == 0
    ensures GoesThrough(asset, legs, d, amount, spare, 0)
       <==> (forall k :: 0 <= k < |d| ==> d[k] >= legs[k].minOut) && (forall k :: 0 <= k < |d| - 1 ==> d[k] > 0)
    ensures Rest(asset, legs, |d|, asset, spare) == spare
  {
    hide ClosedWalk, AvoidsAsset, SpentAsset;
    AvoidsByInputs(asset, legs);
    forall k | 0 <= k < |legs|
      ensures Takes(asset, legs, d, amount, spare, k) == Prior(d, amount, k)
    {
    }
    if GoesThrough(asset, legs, d, amount, spare, 0) {
      forall k | 0 <= k < |d| - 1
        ensures d[k] > 0
      {
        assert Takes(asset, legs, d, amount, spare, k + 1) == d[k];
      }
    }
  }

  /**
   Plan to chain. On clean intermediates, with exact-input adapters and the planned premium, an
   attempt of a planned candidate succeeds exactly when every leg delivers at least its quote and no
   interior delivery is zero. It then gains exactly the planned profit over loan premium, plus what
   the last leg delivered beyond its quote. A route that passes the asset midway is covered when the
   contract held none of the asset before the loan.
   */
  lemma PlannedAttempt(
      c: Chain, market: Market, candidate: Candidate, asset: Address, amount: nat, premium: nat, quotes: seq<nat>,
      d: seq<nat>, w: World)
    requires c.honest && Locked(w.store) && w.store.activeBatchHash != ZeroHash
    requires Closed(c, w.ledger) && Conserved(w.ledger)
    requires ClosedWalk(asset, candidate.legs) && |quotes| == |d| == |candidate.legs| <= MAX_PACKED_LEGS
    requires forall i :: 0 <= i < |quotes| ==> candidate.legs[i].minOut == quotes[i]
    requires amount > 0 && quotes[|quotes| - 1] == amount + premium + candidate.minProfit
    requires Clean(w.ledger, c.self, asset, candidate.legs) && Bal(w.ledger, asset, c.self) >= amount
    requires AvoidsAsset(asset, candidate.legs) || Bal(w.ledger, asset, c.self) == amount
    requires Delivers(c, market, candidate.legs, d, 0, amount, w)
    ensures var r := DoAttempt(c, c.self, candidate, asset, amount, premium, market, w);
            && (r.Ok? <==>
                  (forall i :: 0 <= i < |d| ==> d[i] >= quotes[i]) && (forall i :: 0 <= i < |d| - 1 ==> d[i] > 0))
            && (r.Ok? ==>
                  Bal(r.world.ledger, asset, c.self)
                  == Bal(w.ledger, asset, c.self) + premium + candidate.minProfit + (d[|d| - 1] - quotes[|d| - 1]))
  {
    hide Bal, Conserved, Delivers, Closed, DoAttempt, GoesThrough, Clean, Rest, AvoidsAsset;
    AttemptExactly(c, market, candidate, asset, amount, premium, d, w);
    PassingOn(asset, candidate.legs, d, amount, Bal(w.ledger, asset, c.self) - amount);
  }

  /** Delivering exactly the quotes, with no interior quote zero, gains exactly min_profit. */
  lemma QuotedDeliveryGainsPlannedProfit(
      c: Chain, market: Market, candidate: Candidate, asset: Address, amount: nat, premium: nat, quotes: seq<nat>,
      w: World)
    requires c.honest && Locked(w.store) && w.store.activeBatchHash != ZeroHash
    requires Closed(c, w.ledger) && Conserved(w.ledger)
    requires ClosedWalk(asset, candidate.legs) && |quotes| == |candidate.legs| <= MAX_PACKED_LEGS
    requires forall i :: 0 <= i < |quotes| ==> candidate.legs[i].minOut == quotes[i]
    requires amount > 0 && quotes[|quotes| - 1] == amount + premium + candidate.minProfit
    requires Clean(w.ledger, c.self, asset, candidate.legs) && Bal(w.ledger, asset, c.self) >= amount
    requires AvoidsAsset(asset, candidate.legs) || Bal(w.ledger, asset, c.self) == amount
    requires Delivers(c, market, candidate.legs, quotes, 0, amount, w)
    ensures var r := DoAttempt(c, c.self, candidate, asset, amount, premium, market, w);
            && (r.Ok? <==> forall i :: 0 <= i < |quotes| - 1 ==> quotes[i] > 0)
            && (r.Ok? ==>
                  Bal(r.world.ledger, asset, c.self) == Bal(w.ledger, asset, c.self) + premium + candidate.minProfit)
  {
    hide Bal, DoAttempt, Delivers, Closed, Conserved, Clean, AvoidsAsset;
    PlannedAttempt(c, market, candidate, asset, amount, premium, quotes, quotes, w);
  }

  /** One unit less than the quote on any one leg makes the attempt revert, whatever route and spare balance. */
  lemma OneUnitLessReverts(
      c: Chain, market: Market, candidate: Candidate, asset: Address, amount: nat, premium: nat, j: nat, d: seq<nat>,
      w: World)
    requires c.honest && Locked(w.store) && w.store.activeBatchHash != ZeroHash
    requires Closed(c, w.ledger) && Conserved(w.ledger)
    requires ClosedWalk(asset, candidate.legs) && |d| == |candidate.legs| <= MAX_PACKED_LEGS
    requires Clean(w.ledger, c.self, asset, candidate.legs) && Bal(w.ledger, asset, c.self) >= amount
    requires j < |d| && d[j] + 1 == candidate.legs[j].minOut
    requires Delivers(c, market, candidate.legs, d, 0, amount, w)
    ensures DoAttempt(c, c.self, candidate, asset, amount, premium, market, w).Fail?
  {
    hide Bal, DoAttempt, Delivers, Closed, Conserved, Clean, Rest, Takes;
    AttemptExactly(c, market, candidate, asset, amount, premium, d, w);
  }
}
