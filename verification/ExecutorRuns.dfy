/** Whole operations and whole runs of transactions. */
module ExecutorRuns {
  import opened Bytes
  import opened PackedFormat
  import opened TokenLedger
  import opened Commitment
  import opened ExecutorModel
  import opened ExecutorSafety
  import opened ExecutorValidation
  import opened ExecutorCustody
  import opened ExecutorFallback

  // ---- the callback, with honest tokens ----

  /** What a settled callback guarantees about the contract's tokens. */
  ghost predicate Settled(c: Chain, asset: Address, owed: nat, minProfit: nat, w: World, w': World) {
    && Closed(c, w'.ledger)
    && (forall t: Address :: t != asset ==> Bal(w'.ledger, t, c.self) >= Bal(w.ledger, t, c.self))
    && Bal(w'.ledger, asset, c.self) >= w.store.activePreLoanBalance + owed + minProfit
    && Allowed(w'.ledger, asset, c.self, c.pool) == owed <= MAX_UINT
    && (forall t: Address :: t != asset ==>
          Allowed(w'.ledger, t, c.self, c.pool) == Allowed(w.ledger, t, c.self, c.pool)
              || Allowed(w'.ledger, t, c.self, c.pool) == 0)
    && (Conserved(w.ledger) ==> Conserved(w'.ledger))
  }

  lemma SettleSettles(c: Chain, market: Market, asset: Address, owed: nat, minProfit: nat, w: World, w1: World)
    requires c.honest && LegsKept(c, {asset}, w.ledger, w1.ledger)
    requires w1.store.activePreLoanBalance == w.store.activePreLoanBalance && owed <= MAX_UINT
    ensures var r := Settle(c, market, asset, owed, minProfit, w1);
            r.Ok? ==> Settled(c, asset, owed, minProfit, w, r.world)
  {
    hide Bal, Allowed, Conserved, ForceApprove;
    HonestForceApprove(c, market, asset, c.pool, owed, w1);
    var r := Settle(c, market, asset, owed, minProfit, w1);
    if r.Ok? {
      forall t: Address
        ensures NoSpender(c, r.world.ledger, t)
      {
        assert NoSpender(c, w1.ledger, t);
      }
    }
  }

  lemma RouteCallbackSettles(
      c: Chain, market: Market, asset: Address, amount: nat, premium: nat, params: Params, w: World)
    requires c.honest && Locked(w.store) && Closed(c, w.ledger)
    requires params.EncodedRoute? ==> Clean(w.ledger, c.self, params.route.asset, params.route.legs)
    ensures var r := RouteCallback(c, market, asset, amount, premium, params, w);
            r.Ok? ==> params.EncodedRoute? && Settled(c, asset, amount + premium, params.route.minProfit, w, r.world)
  {
    hide Bal, Allowed, Conserved, Closed, ExecuteLegs, Settle, RouteError, LegsAccepted, Clean, LegsKept, Settled;
    if RouteCallback(c, market, asset, amount, premium, params, w).Ok? {
      var route := params.route;
      RouteErrorExact(w.store, route);
      AcceptedLegsKeep(c, market, asset, route.legs, amount, w.store, w);
      LegsFreezeStorage(c, market, route.legs, 0, amount, w, w);
      var w1 := ExecuteLegs(c, market, route.legs, 0, amount, w).world;
      SettleSettles(c, market, asset, amount + premium, route.minProfit, w,
          w1.(store := w1.store.(activePremium := premium)));
    }
  }

  lemma PackedCallbackSettles(
      c: Chain, market: Market, asset: Address, amount: nat, premium: nat, params: Params, w: World)
    requires c.honest && Locked(w.store) && Closed(c, w.ledger) && w.store.activeBatchHash != ZeroHash
    requires params.RawParams? && ParseBatch(params.raw).Success? ==>
               forall i :: 0 <= i < |ParseBatch(params.raw).value.candidates| ==>
                 Clean(w.ledger, c.self, ParseBatch(params.raw).value.asset,
                     ParseBatch(params.raw).value.candidates[i].legs)
    ensures var r := PackedCallback(c, market, asset, amount, premium, params, w);
            r.Ok? ==> params.RawParams? && Settled(c, asset, amount + premium, r.world.store.activeSelectedMinProfit,
                w, r.world)
  {
    hide Bal, Allowed, Conserved, Closed, TryCandidates, Settle, BatchError, LegsAccepted, Clean, LegsKept, Settled,
         ParseBatch, DoAttempt;
    if PackedCallback(c, market, asset, amount, premium, params, w).Ok? {
      var b := ParseBatch(params.raw).value;
      BatchErrorExact(w.store, b);
      SelectsFirstSuccess(c, market, b.candidates, 0, asset, amount, premium, w);
      var picked := TryCandidates(c, market, b.candidates, 0, asset, amount, premium, w);
      assert CandidateAccepted(w.store, asset, b.candidates[picked.value]);
      AttemptKeeps(c, b.candidates[picked.value], asset, amount, premium, market, w.store, w);
      AttemptFreezesStorage(c, b.candidates[picked.value], asset, amount, premium, market, w, w);
      var w1 := picked.world.(store := picked.world.store.(activePremium := premium));
      SettleSettles(c, market, asset, amount + premium, w1.store.activeSelectedMinProfit, w, w1);
      SettleKeepsOperation(c, market, asset, amount + premium, w1.store.activeSelectedMinProfit, w1);
    }
  }

  lemma AttemptKeeps(
      c: Chain, candidate: Candidate, asset: Address, amount: nat, premium: nat, market: Market, s: Store, w: World)
    requires c.honest && Locked(w.store) && Closed(c, w.ledger)
    requires LegsAccepted(s, asset, candidate.legs) && Clean(w.ledger, c.self, asset, candidate.legs)
    ensures var r := DoAttempt(c, c.self, candidate, asset, amount, premium, market, w);
            r.Ok? ==> LegsKept(c, {asset}, w.ledger, r.world.ledger)
  {
    hide ExecuteLegs, Closed, LegsKept, Clean, LegsAccepted;
    AcceptedLegsKeep(c, market, asset, candidate.legs, amount, s, w);
  }

  /** The legs that the callback parameters carry are clean in the ledger l. */
  ghost predicate CleanParams(c: Chain, l: Ledger, params: Params) {
    match params
    case EncodedRoute(r) => Clean(l, c.self, r.asset, r.legs)
    case RawParams(raw) =>
      ParseBatch(raw).Success? ==>
        forall i :: 0 <= i < |ParseBatch(raw).value.candidates| ==>
          Clean(l, c.self, ParseBatch(raw).value.asset, ParseBatch(raw).value.candidates[i].legs)
  }

  /** The profit a finished callback has promised: that of the route, or of the selected candidate. */
  function Promised(params: Params, s: Store): nat {
    match params
    case EncodedRoute(r) => r.minProfit
    case RawParams(_) => s.activeSelectedMinProfit
  }

  lemma CallbackSettles(c: Chain, market: Market, asset: Address, amount: nat, premium: nat, params: Params, w: World)
    requires c.honest && w.store.operationEntered && Closed(c, w.ledger) && CleanParams(c, w.ledger, params)
    ensures var r := DoExecuteOperation(c, c.pool, asset, amount, premium, c.self, params, market, w);
            r.Ok? ==> Settled(c, asset, amount + premium, Promised(params, r.world.store), w, r.world)
  {
    hide PackedCallback, RouteCallback, Closed, Clean, Bal, Allowed, Conserved, ParseBatch;
    var w1 := w.(store := w.store.(callbackEntered := true));
    if w1.store.activeBatchHash != ZeroHash {
      PackedCallbackSettles(c, market, asset, amount, premium, params, w1);
    } else {
      RouteCallbackSettles(c, market, asset, amount, premium, params, w1);
    }
  }

  // ---- the loan, with an honest pool ----

  lemma CleanAfterLoan(c: Chain, l: Ledger, asset: Address, amount: nat, params: Params)
    requires c.self != c.pool && Closed(c, l) && CleanParams(c, l, params)
    requires Transfer(l, asset, c.pool, c.self, amount).Some?
    requires match params
             case EncodedRoute(r) => r.asset == asset
             case RawParams(raw) => ParseBatch(raw).Success? ==> ParseBatch(raw).value.asset == asset
    ensures var lent := Transfer(l, asset, c.pool, c.self, amount).value;
            && CleanParams(c, lent, params) && Closed(c, lent)
            && (forall t: Address :: t != asset ==> Bal(lent, t, c.self) == Bal(l, t, c.self))
            && Bal(lent, asset, c.self) == Bal(l, asset, c.self) + amount
            && (forall t: Address :: Allowed(lent, t, c.self, c.pool) == Allowed(l, t, c.self, c.pool))
            && (Conserved(l) ==> Conserved(lent))
  {
    hide Bal, Allowed, Conserved, Transfer, Supply, ParseBatch;
    TransferEffect(l, asset, c.pool, c.self, amount);
    if Conserved(l) {
      TransferConserves(l, asset, c.pool, c.self, amount);
    }
    forall t: Address
      ensures NoSpender(c, Transfer(l, asset, c.pool, c.self, amount).value, t)
    {
      assert NoSpender(c, l, t);
    }
  }

  /** The pool is left the asset's allowance only if it never gets used up, and no other allowance it did not have. */
  ghost predicate PoolAllowances(c: Chain, asset: Address, owed: nat, l: Ledger, l': Ledger) {
    && Allowed(l', asset, c.self, c.pool) == (if c.unlimited && owed == MAX_UINT then MAX_UINT else 0)
    && forall t: Address :: t != asset ==>
         Allowed(l', t, c.self, c.pool) == Allowed(l, t, c.self, c.pool) || Allowed(l', t, c.self, c.pool) == 0
  }

  /** The honest loan as a whole: the profit stays, no other token is lowered, no spender is left. */
  ghost predicate Repaid(c: Chain, asset: Address, owed: nat, minProfit: nat, w: World, w': World) {
    && Closed(c, w'.ledger)
    && (forall t: Address :: t != asset ==> Bal(w'.ledger, t, c.self) >= Bal(w.ledger, t, c.self))
    && Bal(w'.ledger, asset, c.self) >= w.store.activePreLoanBalance + minProfit
    && PoolAllowances(c, asset, owed, w.ledger, w'.ledger)
    && (Conserved(w.ledger) ==> Conserved(w'.ledger))
  }

  lemma PullRepays(c: Chain, asset: Address, owed: nat, minProfit: nat, w: World, w1: World, w2: World)
    requires c.self != c.pool
    requires Settled(c, asset, owed, minProfit, w, w1)
    requires TransferFrom(w1.ledger, c.unlimited, asset, c.pool, c.self, c.pool, owed).Some?
    requires w2.ledger == TransferFrom(w1.ledger, c.unlimited, asset, c.pool, c.self, c.pool, owed).value
    ensures Repaid(c, asset, owed, minProfit, w, w2)
  {
    hide Bal, Allowed, Conserved, TransferFrom, Supply;
    TransferFromEffect(w1.ledger, c.unlimited, asset, c.pool, c.self, c.pool, owed);
    if Conserved(w1.ledger) {
      TransferFromConserves(w1.ledger, c.unlimited, asset, c.pool, c.self, c.pool, owed);
    }
    forall t: Address
      ensures NoSpender(c, w2.ledger, t)
    {
      assert NoSpender(c, w1.ledger, t);
    }
  }

  lemma FlashLoanRepaid(
      c: Chain, premiumBps: nat, market: Market, asset: Address, amount: nat, params: Params, w: World)
    requires c.honest && c.self != c.pool && w.store.operationEntered && Closed(c, w.ledger)
             && CleanParams(c, w.ledger, params)
    requires match params
             case EncodedRoute(r) => r.asset == asset
             case RawParams(raw) => ParseBatch(raw).Success? ==> ParseBatch(raw).value.asset == asset
    ensures var r := FlashLoan(c, premiumBps, market, asset, amount, params, w);
            r.Ok? ==> Repaid(c, asset, amount + Premium(amount, premiumBps), Promised(params, r.world.store), w,
                r.world)
  {
    hide Bal, Allowed, Conserved, Transfer, TransferFrom, DoExecuteOperation, CleanParams, Closed, Premium, ParseBatch;
    var premium := Premium(amount, premiumBps);
    if FlashLoan(c, premiumBps, market, asset, amount, params, w).Ok? {
      CleanAfterLoan(c, w.ledger, asset, amount, params);
      var lent := w.(ledger := Transfer(w.ledger, asset, c.pool, c.self, amount).value);
      CallbackSettles(c, market, asset, amount, premium, params, lent);
      var w1 := DoExecuteOperation(c, c.pool, asset, amount, premium, c.self, params, market, lent).world;
      assert Settled(c, asset, amount + premium, Promised(params, w1.store), w, w1);
      PullRepays(c, asset, amount + premium, Promised(params, w1.store), w, w1,
          FlashLoan(c, premiumBps, market, asset, amount, params, w).world);
    }
  }

  lemma LoanReportsPremium(
      c: Chain, premiumBps: nat, market: Market, asset: Address, amount: nat, params: Params, w: World)
    requires w.store.operationEntered
    ensures var r := FlashLoan(c, premiumBps, market, asset, amount, params, w);
            r.Ok? ==> r.world.store.activePremium == Premium(amount, premiumBps)
  {
    hide Transfer, TransferFrom, DoExecuteOperation, Premium;
    var lent := Transfer(w.ledger, asset, c.pool, c.self, amount);
    if lent.Some? {
      CallbackReportsPremium(c, c.pool, asset, amount, Premium(amount, premiumBps), c.self, params, market,
          w.(ledger := lent.value));
    }
  }

  // ---- start and startPacked, with honest tokens and pool ----

  lemma StartIsClean(c: Chain, sender: Address, route: Route, w: World)
    requires StartError(c, sender, route, w).None?
    ensures RouteAccepted(w.store, route) && Clean(w.ledger, c.self, route.asset, route.legs)
    ensures RouteDigest(route) == route.routeHash && route.routeHash !in w.store.commitmentUsed
  {
    hide Bal, RouteError, FirstDirty, RouteAccepted, Clean;
    RouteErrorExact(w.store, route);
    CleanExact(w.ledger, c.self, route.asset, route.legs);
  }

  lemma CommittedPassed(c: Chain, sender: Address, packed: seq<Byte>, pool: PoolCode, w: World)
    requires DoStartPacked(c, sender, packed, pool, w).Ok?
    ensures StartPackedError(c, sender, packed, w).None?
  {
    hide StartPackedError, RunPool;
  }

  lemma StartPackedIsClean(c: Chain, sender: Address, packed: seq<Byte>, w: World)
    requires StartPackedError(c, sender, packed, w).None?
    ensures ParseBatch(packed).Success? && BatchAccepted(w.store, ParseBatch(packed).value)
    ensures CleanParams(c, w.ledger, RawParams(packed))
    ensures ParamsHash(RawParams(packed)) !in w.store.commitmentUsed
  {
    hide Bal, BatchError, FirstDirtyCandidate, BatchAccepted, Clean, ParseBatch;
    BatchErrorExact(w.store, ParseBatch(packed).value);
    FirstDirtyCandidateExact(w.ledger, c.self, ParseBatch(packed).value.asset, ParseBatch(packed).value.candidates, 0);
  }

  lemma HonestRunIsLoan(c: Chain, pool: PoolCode, asset: Address, amount: nat, params: Params, w: World)
    requires c.honest && RunPool(c, pool, asset, amount, params, w).Ok?
    ensures pool.HonestPool?
    ensures RunPool(c, pool, asset, amount, params, w)
            == FlashLoan(c, pool.premiumBps, pool.market, asset, amount, params, w)
  {
    hide FlashLoan;
  }

  /** A committed start leaves every balance at least where it was, and the asset's higher by the promised profit. */
  lemma StartGains(c: Chain, sender: Address, route: Route, pool: PoolCode, w: World)
    requires c.honest && c.self != c.pool && Closed(c, w.ledger)
    ensures var r := DoStart(c, sender, route, pool, w);
            r.Ok? ==>
              && pool.HonestPool?
              && Closed(c, r.world.ledger)
              && (Conserved(w.ledger) ==> Conserved(r.world.ledger))
              && (forall t: Address :: Bal(r.world.ledger, t, c.self) >= Bal(w.ledger, t, c.self))
              && Bal(r.world.ledger, route.asset, c.self) >= Bal(w.ledger, route.asset, c.self) + route.minProfit
              && PoolAllowances(c, route.asset, route.amount + Premium(route.amount, pool.premiumBps), w.ledger,
                   r.world.ledger)
  {
    hide Bal, Allowed, Conserved, FlashLoan, RunPool, StartError, Clean, Closed, PoolAllowances, Premium;
    if DoStart(c, sender, route, pool, w).Ok? {
      HonestRunIsLoan(c, pool, route.asset, route.amount, EncodedRoute(route), StartOpened(c, route, w));
      StartIsClean(c, sender, route, w);
      FlashLoanRepaid(c, pool.premiumBps, pool.market, route.asset, route.amount, EncodedRoute(route),
          StartOpened(c, route, w));
    }
  }

  lemma StartPackedGains(c: Chain, sender: Address, packed: seq<Byte>, pool: PoolCode, w: World)
    requires c.honest && c.self != c.pool && Closed(c, w.ledger)
    ensures var r := DoStartPacked(c, sender, packed, pool, w);
            r.Ok? ==>
              && pool.HonestPool? && ParseBatch(packed).Success?
              && Closed(c, r.world.ledger)
              && (Conserved(w.ledger) ==> Conserved(r.world.ledger))
              && (forall t: Address :: Bal(r.world.ledger, t, c.self) >= Bal(w.ledger, t, c.self))
              && var b := ParseBatch(packed).value;
                 PoolAllowances(c, b.asset, b.amount + Premium(b.amount, pool.premiumBps), w.ledger, r.world.ledger)
  {
    hide Bal, Allowed, Conserved, FlashLoan, RunPool, StartPackedError, Clean, Closed, PoolAllowances, Premium,
         ParseBatch;
    if DoStartPacked(c, sender, packed, pool, w).Ok? {
      StartPackedIsClean(c, sender, packed, w);
      var b := ParseBatch(packed).value;
      HonestRunIsLoan(c, pool, b.asset, b.amount, RawParams(packed), PackedOpened(c, packed, b.asset, w));
      FlashLoanRepaid(c, pool.premiumBps, pool.market, b.asset, b.amount, RawParams(packed),
          PackedOpened(c, packed, b.asset, w));
    }
  }

  /**
   A committed start leaves the pool an allowance of its asset exactly if it owed the largest word of a token that
   never uses that up.
   */
  lemma StartLeavesAllowanceExactly(c: Chain, sender: Address, route: Route, pool: PoolCode, w: World)
    requires c.honest && c.self != c.pool && Closed(c, w.ledger) && DoStart(c, sender, route, pool, w).Ok?
    ensures pool.HonestPool?
    ensures Allowed(DoStart(c, sender, route, pool, w).world.ledger, route.asset, c.self, c.pool) != 0
       <==> c.unlimited && route.amount + Premium(route.amount, pool.premiumBps) == MAX_UINT
  {
    hide DoStart, Closed, Bal, Allowed, Conserved, Premium;
    StartGains(c, sender, route, pool, w);
  }

  /** So does a committed startPacked. */
  lemma PackedLeavesAllowanceExactly(c: Chain, sender: Address, packed: seq<Byte>, pool: PoolCode, w: World)
    requires c.honest && c.self != c.pool && Closed(c, w.ledger) && DoStartPacked(c, sender, packed, pool, w).Ok?
    ensures pool.HonestPool? && ParseBatch(packed).Success?
    ensures var b := ParseBatch(packed).value;
            Allowed(DoStartPacked(c, sender, packed, pool, w).world.ledger, b.asset, c.self, c.pool) != 0
            <==> c.unlimited && b.amount + Premium(b.amount, pool.premiumBps) == MAX_UINT
  {
    hide DoStartPacked, Closed, Bal, Allowed, Conserved, Premium, ParseBatch;
    StartPackedGains(c, sender, packed, pool, w);
  }

  // ---- between transactions ----

  /** All locks and all active fields are clear. */
  predicate AtRest(s: Store) {
    && Idle(s) && s.activePreLoanBalance == 0 && s.activePremium == 0
    && s.activeSelectedCandidateId == 0 && s.activeSelectedCandidateIndex == 0 && s.activeSelectedMinProfit == 0
  }

  /**
   What a committed start leaves behind, with any pool: in storage the one used commitment and nothing
   else, no sweep, and in the log one entry with the route's own terms and the asset's real gain.
   */
  lemma StartLeavesStore(c: Chain, sender: Address, route: Route, pool: PoolCode, w: World)
    requires AtRest(w.store)
    ensures var r := DoStart(c, sender, route, pool, w);
            r.Ok? ==>
              && r.world.store == w.store.(commitmentUsed := w.store.commitmentUsed + {route.routeHash})
              && r.world.swept == w.swept
              && |r.world.events| == |w.events| + 1
              && Bal(r.world.ledger, route.asset, c.self) >= Bal(w.ledger, route.asset, c.self) + route.minProfit
              && var gain := Bal(r.world.ledger, route.asset, c.self) - Bal(w.ledger, route.asset, c.self);
                 var premium := r.world.events[|w.events|].premium;
                 r.world.events
                 == w.events + [RouteExecuted(route.routeHash, route.asset, route.amount, premium, gain)]
  {
    hide Bal, RunPool, StartError;
    if DoStart(c, sender, route, pool, w).Ok? {
      PoolKeepsOperation(c, pool, route.asset, route.amount, EncodedRoute(route), StartOpened(c, route, w));
    }
  }

  /** The same for startPacked, whose commitment is the hash of the bytes themselves. */
  lemma StartPackedLeavesStore(c: Chain, sender: Address, packed: seq<Byte>, pool: PoolCode, w: World)
    requires AtRest(w.store)
    ensures var r := DoStartPacked(c, sender, packed, pool, w);
            r.Ok? ==>
              && r.world.store == w.store.(commitmentUsed := w.store.commitmentUsed + {Digest(RawBytes(packed))})
              && r.world.swept == w.swept
              && ParseBatch(packed).Success?
              && var b := ParseBatch(packed).value;
                 && |r.world.events| == |w.events| + 1
                 && Bal(r.world.ledger, b.asset, c.self) >= Bal(w.ledger, b.asset, c.self)
                 && var e := r.world.events[|w.events|];
                    var gain := Bal(r.world.ledger, b.asset, c.self) - Bal(w.ledger, b.asset, c.self);
                    && e.PackedRouteExecuted? && e.candidateId != 0
                    && r.world.events
                       == w.events + [PackedRouteExecuted(Digest(RawBytes(packed)), e.candidateId, e.candidateIndex,
                                                          b.asset, b.amount, e.premium, gain)]
  {
    hide Bal, RunPool, StartPackedError, ParseBatch;
    if DoStartPacked(c, sender, packed, pool, w).Ok? {
      StartPackedIsClean(c, sender, packed, w);
      var b := ParseBatch(packed).value;
      PoolKeepsOperation(c, pool, b.asset, b.amount, RawParams(packed), PackedOpened(c, packed, b.asset, w));
    }
  }

  /** Committed operations carry distinct commitments, and a commitment is used exactly if its operation committed. */
  ghost predicate Logged(w: World) {
    && (forall i, j :: 0 <= i < j < |w.events| ==> w.events[i].commitment != w.events[j].commitment)
    && (forall h :: h in w.store.commitmentUsed <==> exists i :: 0 <= i < |w.events| && w.events[i].commitment == h)
  }

  /** The last logged operation on t owed the largest word, the one allowance that some tokens never use up. */
  ghost predicate LastOwedMost(events: seq<Event>, t: Address) {
    exists i :: OwedMostLast(events, t, i)
  }

  predicate OwedMostLast(events: seq<Event>, t: Address, i: int) {
    && 0 <= i < |events| && events[i].asset == t && events[i].amount + events[i].premium == MAX_UINT
    && forall j :: i < j < |events| ==> events[j].asset != t
  }

  /** The pool holds no allowance, except what such an operation left it. */
  ghost predicate PoolAtRest(c: Chain, w: World) {
    forall t: Address ::
      Allowed(w.ledger, t, c.self, c.pool) == 0
      || (c.unlimited && Allowed(w.ledger, t, c.self, c.pool) == MAX_UINT && LastOwedMost(w.events, t))
  }

  ghost predicate Invariant(c: Chain, w: World) {
    && AtRest(w.store) && Logged(w)
    && (c.honest ==> Closed(c, w.ledger) && PoolAtRest(c, w) && Conserved(w.ledger))
  }

  /** One more logged operation explains the allowance it leaves the pool. */
  lemma PoolStaysAtRest(c: Chain, asset: Address, owed: nat, w: World, w': World)
    requires PoolAtRest(c, w) && PoolAllowances(c, asset, owed, w.ledger, w'.ledger)
    requires |w'.events| == |w.events| + 1 && w.events <= w'.events
    requires var e := w'.events[|w.events|]; e.asset == asset && e.amount + e.premium == owed
    ensures PoolAtRest(c, w')
  {
    hide Allowed;
    var n := |w.events|;
    forall t: Address | t != asset && LastOwedMost(w.events, t)
      ensures LastOwedMost(w'.events, t)
    {
      var i :| OwedMostLast(w.events, t, i);
      assert OwedMostLast(w'.events, t, i);
    }
    if owed == MAX_UINT {
      assert OwedMostLast(w'.events, asset, n);
    }
  }

  /** The log only grows, and what the contract holds of a token, counting what the owner swept out, never shrinks. */
  ghost predicate Progress(c: Chain, w: World, w': World) {
    && w.events <= w'.events
    && (forall t: Address :: Swept(w', t) >= Swept(w, t))
    && (c.honest ==> forall t: Address ::
         Bal(w'.ledger, t, c.self) + Swept(w', t) >= Bal(w.ledger, t, c.self) + Swept(w, t))
  }

  lemma ProgressTwice(c: Chain, w: World, w1: World, w2: World)
    requires Progress(c, w, w1) && Progress(c, w1, w2)
    ensures Progress(c, w, w2)
  {
    hide Bal, Swept;
  }

  lemma LoggedOneMore(w: World, w': World, e: Event)
    requires Logged(w) && e.commitment !in w.store.commitmentUsed
    requires w'.events == w.events + [e] && w'.store.commitmentUsed == w.store.commitmentUsed + {e.commitment}
    ensures Logged(w')
  {
    forall h
      ensures h in w'.store.commitmentUsed <==> exists i :: 0 <= i < |w'.events| && w'.events[i].commitment == h
    {
      if h in w.store.commitmentUsed {
        var i :| 0 <= i < |w.events| && w.events[i].commitment == h;
        assert w'.events[i].commitment == h;
      } else if h == e.commitment {
        assert w'.events[|w.events|].commitment == h;
      }
    }
  }

  lemma StartInvariant(c: Chain, sender: Address, route: Route, pool: PoolCode, w: World)
    requires c.self != c.pool && Invariant(c, w)
    ensures var r := DoStart(c, sender, route, pool, w);
            r.Ok? ==> Invariant(c, r.world) && Progress(c, w, r.world)
  {
    hide Bal, Allowed, Conserved, RunPool, StartError, Clean, Closed, PoolAtRest, Logged, PoolAllowances, Premium,
         FlashLoan;
    var r := DoStart(c, sender, route, pool, w);
    if r.Ok? {
      StartIsClean(c, sender, route, w);
      PoolKeepsOperation(c, pool, route.asset, route.amount, EncodedRoute(route), StartOpened(c, route, w));
      LoggedOneMore(w, r.world, r.world.events[|w.events|]);
      if c.honest {
        StartGains(c, sender, route, pool, w);
        HonestRunIsLoan(c, pool, route.asset, route.amount, EncodedRoute(route), StartOpened(c, route, w));
        LoanReportsPremium(c, pool.premiumBps, pool.market, route.asset, route.amount, EncodedRoute(route),
            StartOpened(c, route, w));
        PoolStaysAtRest(c, route.asset, route.amount + Premium(route.amount, pool.premiumBps), w, r.world);
      }
      assert forall t: Address :: Swept(r.world, t) == Swept(w, t);
    }
  }

  lemma StartPackedInvariant(c: Chain, sender: Address, packed: seq<Byte>, pool: PoolCode, w: World)
    requires c.self != c.pool && Invariant(c, w)
    ensures var r := DoStartPacked(c, sender, packed, pool, w);
            r.Ok? ==> Invariant(c, r.world) && Progress(c, w, r.world)
  {
    hide Bal, Allowed, Conserved, RunPool, StartPackedError, Clean, Closed, PoolAtRest, Logged, ParseBatch,
         PoolAllowances, Premium, FlashLoan;
    var r := DoStartPacked(c, sender, packed, pool, w);
    if r.Ok? {
      StartPackedIsClean(c, sender, packed, w);
      var b := ParseBatch(packed).value;
      PoolKeepsOperation(c, pool, b.asset, b.amount, RawParams(packed), PackedOpened(c, packed, b.asset, w));
      LoggedOneMore(w, r.world, r.world.events[|w.events|]);
      if c.honest {
        StartPackedGains(c, sender, packed, pool, w);
        HonestRunIsLoan(c, pool, b.asset, b.amount, RawParams(packed), PackedOpened(c, packed, b.asset, w));
        LoanReportsPremium(c, pool.premiumBps, pool.market, b.asset, b.amount, RawParams(packed),
            PackedOpened(c, packed, b.asset, w));
        PoolStaysAtRest(c, b.asset, b.amount + Premium(b.amount, pool.premiumBps), w, r.world);
      }
      assert forall t: Address :: Swept(r.world, t) == Swept(w, t);
    }
  }
}
