/** When start commits: with exact-input adapters, by the deliveries alone. */
module RouteExecution {
  import opened PackedFormat
  import opened TokenLedger
  import opened Commitment
  import opened ExecutorModel
  import opened ExecutorSafety
  import opened ExecutorValidation
  import opened ExecutorCustody
  import opened ExecutorRuns
  import opened ExecutorLiveness
  import opened PlanExecution

  lemma AcceptedIsWalk(s: Store, asset: Address, legs: seq<Leg>)
    requires LegsAccepted(s, asset, legs)
    ensures ClosedWalk(asset, legs)
  {
  }

  /** The world in which start's legs run: opened, funded, both locks held. */
  function Called(c: Chain, route: Route, w: World): World
    requires Transfer(w.ledger, route.asset, c.pool, c.self, route.amount).Some?
  {
    var lent := Lent(c, route.asset, route.amount, StartOpened(c, route, w));
    lent.(store := lent.store.(callbackEntered := true))
  }

  /** With exact-input adapters these deliveries carry the route through and leave loan, premium and profit. */
  predicate Pays(route: Route, premium: nat, d: seq<nat>, spare: nat)
    requires |d| == |route.legs| > 0
  {
    && GoesThrough(route.asset, route.legs, d, route.amount, spare, 0)
    && Rest(route.asset, route.legs, |d|, route.asset, spare) + d[|d| - 1]
       >= spare + route.amount + premium + route.minProfit
  }

  lemma CallbackPays(c: Chain, route: Route, premium: nat, market: Market, d: seq<nat>, v: World)
    requires c.honest && Locked(v.store) && Closed(c, v.ledger) && Conserved(v.ledger)
    requires v.store.activeRouteHash == route.routeHash == RouteDigest(route)
    requires !Stale(c, route.targetBlock, route.deadline) && RouteAccepted(v.store, route)
    requires Clean(v.ledger, c.self, route.asset, route.legs)
    requires Bal(v.ledger, route.asset, c.self) == v.store.activePreLoanBalance + route.amount
    requires |d| == |route.legs| && Delivers(c, market, route.legs, d, 0, route.amount, v)
    ensures |route.legs| > 0
    ensures RouteCallback(c, market, route.asset, route.amount, premium, EncodedRoute(route), v).Ok?
       <==> Pays(route, premium, d, v.store.activePreLoanBalance)
  {
    hide Bal, Conserved, Closed, Delivers, ExecuteLegs, Settle, RouteError, RouteAccepted, GoesThrough, Rest, Clean,
         LegsKept, ClosedWalk, LegsAccepted;
    var legs, asset := route.legs, route.asset;
    RouteErrorExact(v.store, route);
    AcceptedWalk(v.store, route);
    HoldingAtStart(c, asset, legs, route.amount, v.ledger);
    ExactChain(c, market, asset, legs, d, 0, route.amount, v.store.activePreLoanBalance, v);
    LegsKeep(c, market, legs, 0, route.amount, v);
    LegsFreezeStorage(c, market, legs, 0, route.amount, v, v);
    var q := ExecuteLegs(c, market, legs, 0, route.amount, v);
    if q.Ok? {
      KeptConserved(c, legs, v.ledger, q.world.ledger);
      BalanceFitsWord(q.world.ledger, asset, c.self);
      EndsWith(c, asset, legs, d[|d| - 1], v.store.activePreLoanBalance, q.world.ledger);
      var w1 := q.world.(store := q.world.store.(activePremium := premium));
      SettlesIff(c, market, asset, route.amount + premium, route.minProfit, w1);
    }
  }

  lemma AcceptedWalk(s: Store, route: Route)
    requires RouteAccepted(s, route)
    ensures ClosedWalk(route.asset, route.legs) && |route.legs| > 0
  {
    hide ClosedWalk;
    AcceptedIsWalk(s, route.asset, route.legs);
  }

  lemma EndsWith(c: Chain, asset: Address, legs: seq<Leg>, x: nat, spare: nat, l: Ledger)
    requires ClosedWalk(asset, legs) && Holding(c, asset, legs, |legs|, x, spare, l)
    ensures Bal(l, asset, c.self) == Rest(asset, legs, |legs|, asset, spare) + x
  {
    hide Bal, Rest, Chained;
    assert legs[|legs| - 1].tokenOut == asset;
  }

  lemma SettlesIff(c: Chain, market: Market, asset: Address, owed: nat, minProfit: nat, w: World)
    requires c.honest && Bal(w.ledger, asset, c.self) <= MAX_UINT
    ensures Settle(c, market, asset, owed, minProfit, w).Ok?
       <==> Bal(w.ledger, asset, c.self) >= w.store.activePreLoanBalance + owed + minProfit
  {
    hide Bal, ForceApprove;
    HonestForceApprove(c, market, asset, c.pool, owed, w);
  }

  /**
   With exact-input adapters an admitted, funded start commits exactly when every leg has something to
   spend, every quote is met, and the last delivery, with what is left of the spare asset, covers what
   the contract held, the loan, its premium and the profit.
   */
  lemma StartCommitsExactly(
      c: Chain, sender: Address, route: Route, premiumBps: nat, market: Market, d: seq<nat>, w: World)
    requires c.honest && c.self != c.pool && Invariant(c, w) && StartError(c, sender, route, w).None?
    requires Fundable(c, premiumBps, route.asset, route.amount, w.ledger)
    requires Transfer(w.ledger, route.asset, c.pool, c.self, route.amount).Some?
    requires |d| == |route.legs| && Delivers(c, market, route.legs, d, 0, route.amount, Called(c, route, w))
    ensures |route.legs| > 0
    ensures DoStart(c, sender, route, HonestPool(premiumBps, market), w).Ok?
       <==> Pays(route, Premium(route.amount, premiumBps), d, Bal(w.ledger, route.asset, c.self))
  {
    hide Bal, Conserved, Transfer, Closed, Clean, Premium, StartError, PoolAtRest, Logged, RouteAccepted, Delivers,
         Pays, RouteDigest, RouteCallback, DoStart, Fundable;
    StartIsClean(c, sender, route, w);
    StartIsFresh(c, sender, route, w);
    StartCommitsIffCallback(c, sender, route, premiumBps, market, w);
    CleanAfterLoan(c, w.ledger, route.asset, route.amount, EncodedRoute(route));
    var v := Called(c, route, w);
    assert v.store.activeBatchHash == ZeroHash;
    AcceptedLater(w.store, v.store, route);
    CallbackPays(c, route, Premium(route.amount, premiumBps), market, d, v);
  }

  lemma StartIsFresh(c: Chain, sender: Address, route: Route, w: World)
    requires StartError(c, sender, route, w).None?
    ensures !Stale(c, route.targetBlock, route.deadline)
  {
    hide RouteError, FirstDirty;
  }

  lemma AcceptedLater(s: Store, s': Store, route: Route)
    requires RouteAccepted(s, route) && s.adapterAllowed == s'.adapterAllowed && s.tokenAllowed == s'.tokenAllowed
    ensures RouteAccepted(s', route)
  {
  }
}
