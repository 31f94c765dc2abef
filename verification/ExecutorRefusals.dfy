/** With which error the contract refuses, check by check, and what a fresh deployment refuses. */
module ExecutorRefusals {
  import opened Bytes
  import opened PackedFormat
  import opened TokenLedger
  import opened Commitment
  import opened ExecutorModel
  import opened ExecutorSafety
  import opened ExecutorCustody
  import opened ExecutorFallback
  import opened ExecutorRuns
  import opened ExecutorValidation

  // ---- legs, routes, batches ----

  /** A leg is refused first for what is not allowed, then for standing still. */
  lemma LegRefusals(s: Store, l: Leg)
    ensures LegError(s, l) == Some(Unauthorized)
            <==> l.adapter !in s.adapterAllowed || l.tokenIn !in s.tokenAllowed || l.tokenOut !in s.tokenAllowed
    ensures LegError(s, l) == Some(InvalidRoute)
            <==> && l.adapter in s.adapterAllowed && l.tokenIn in s.tokenAllowed && l.tokenOut in s.tokenAllowed
                 && l.tokenIn == l.tokenOut
    ensures LegError(s, l).None? || LegError(s, l) in {Some(Unauthorized), Some(InvalidRoute)}
  {
  }

  predicate FirstBadLeg(s: Store, legs: seq<Leg>, k: int) {
    && 0 <= k < |legs| && LegError(s, legs[k]).Some?
    && forall j :: 0 <= j < k ==> LegError(s, legs[j]).None?
  }

  lemma {:induction false} FirstLegDecides(s: Store, legs: seq<Leg>, i: nat, k: int)
    requires FirstBadLeg(s, legs, k) && i <= k
    ensures FirstLegError(s, legs, i) == LegError(s, legs[k])
    decreases k - i
  {
    hide LegError;
    if i < k {
      FirstLegDecides(s, legs, i + 1, k);
    }
  }

  /**
   A route is refused for missing parts, then for its asset, then for its ends, then for its first bad leg, then for a
   gap.
   */
  lemma RouteRefusals(s: Store, r: Route)
    ensures r.asset == 0 || r.amount == 0 || |r.legs| < 2 ==> RouteError(s, r) == Some(InvalidRoute)
    ensures r.asset != 0 && r.amount != 0 && |r.legs| >= 2 ==>
              && (r.asset !in s.tokenAllowed ==> RouteError(s, r) == Some(Unauthorized))
              && (r.asset in s.tokenAllowed
                  && (r.legs[0].tokenIn != r.asset || r.legs[|r.legs| - 1].tokenOut != r.asset) ==>
                    RouteError(s, r) == Some(InvalidRoute))
              && (r.asset in s.tokenAllowed && r.legs[0].tokenIn == r.asset == r.legs[|r.legs| - 1].tokenOut ==>
                    && (forall k :: FirstBadLeg(s, r.legs, k) ==> RouteError(s, r) == LegError(s, r.legs[k]))
                    && ((forall k :: 0 <= k < |r.legs| ==> LegError(s, r.legs[k]).None?) && !Chained(r.legs) ==>
                          RouteError(s, r) == Some(InvalidRoute)))
  {
    hide LegError, Chained, FirstLegError;
    forall k | FirstBadLeg(s, r.legs, k)
      ensures FirstLegError(s, r.legs, 0) == LegError(s, r.legs[k])
    {
      FirstLegDecides(s, r.legs, 0, k);
    }
    FirstLegErrorExact(s, r.legs, 0);
    LegsAcceptedOneByOne(s, r.legs);
  }

  lemma LegsAcceptedOneByOne(s: Store, legs: seq<Leg>)
    ensures forall k :: 0 <= k < |legs| ==> (LegError(s, legs[k]).None? <==> LegAccepted(s, legs[k]))
  {
  }

  /** In a packed candidate a bad leg is reported before its missing link to the next, and before any later leg. */
  lemma {:induction false} FirstLinkDecides(s: Store, legs: seq<Leg>, i: nat, k: nat)
    requires i <= k < |legs|
    requires forall j :: i <= j < k ==> LegError(s, legs[j]).None? && legs[j].tokenOut == legs[j + 1].tokenIn
    ensures LegError(s, legs[k]).Some? ==> FirstLinkError(s, legs, i) == LegError(s, legs[k])
    ensures LegError(s, legs[k]).None? && k + 1 < |legs| && legs[k].tokenOut != legs[k + 1].tokenIn ==>
              FirstLinkError(s, legs, i) == Some(InvalidRoute)
    decreases k - i
  {
    hide LegError;
    if i < k {
      FirstLinkDecides(s, legs, i + 1, k);
    }
  }

  /**
   A candidate is refused for its id or its number of legs, then for its ends, then for its legs and links in order.
   */
  lemma CandidateRefusals(s: Store, asset: Address, c: Candidate)
    ensures c.candidateId == 0 || |c.legs| < 2 || |c.legs| > 4 ==> CandidateError(s, asset, c) == Some(InvalidRoute)
    ensures c.candidateId != 0 && 2 <= |c.legs| <= 4 ==>
              && (c.legs[0].tokenIn != asset || c.legs[|c.legs| - 1].tokenOut != asset ==>
                    CandidateError(s, asset, c) == Some(InvalidRoute))
              && (c.legs[0].tokenIn == asset == c.legs[|c.legs| - 1].tokenOut ==>
                    CandidateError(s, asset, c) == FirstLinkError(s, c.legs, 0))
  {
    hide FirstLinkError;
  }

  /**
   A batch is refused for missing parts or the number of candidates, then for its asset, then for its first bad
   candidate.
   */
  lemma BatchRefusals(s: Store, b: Batch)
    ensures b.asset == 0 || b.amount == 0 || |b.candidates| == 0 || |b.candidates| > 8 ==>
              BatchError(s, b) == Some(InvalidPackedBatch)
    ensures b.asset != 0 && b.amount != 0 && 1 <= |b.candidates| <= 8 ==>
              && (b.asset !in s.tokenAllowed ==> BatchError(s, b) == Some(Unauthorized))
              && (b.asset in s.tokenAllowed ==>
                    forall k :: FirstBadCandidate(s, b, k) ==>
                      BatchError(s, b) == CandidateError(s, b.asset, b.candidates[k]))
  {
    hide CandidateError, FirstCandidateError;
    forall k | FirstBadCandidate(s, b, k)
      ensures FirstCandidateError(s, b.asset, b.candidates, 0) == CandidateError(s, b.asset, b.candidates[k])
    {
      FirstCandidateDecides(s, b, 0, k);
    }
  }

  predicate FirstBadCandidate(s: Store, b: Batch, k: int) {
    && 0 <= k < |b.candidates| && CandidateError(s, b.asset, b.candidates[k]).Some?
    && forall j :: 0 <= j < k ==> CandidateError(s, b.asset, b.candidates[j]).None?
  }

  lemma {:induction false} FirstCandidateDecides(s: Store, b: Batch, i: nat, k: int)
    requires FirstBadCandidate(s, b, k) && i <= k
    ensures FirstCandidateError(s, b.asset, b.candidates, i) == CandidateError(s, b.asset, b.candidates[k])
    decreases k - i
  {
    hide CandidateError;
    if i < k {
      FirstCandidateDecides(s, b, i + 1, k);
    }
  }

  /** The reported dirty token is the first interior one that is not clean, with its balance. */
  lemma {:induction false} FirstDirtyDecides(l: Ledger, self: Address, asset: Address, legs: seq<Leg>, i: nat, k: nat)
    requires i <= k < |legs| - 1 && legs[k].tokenOut != asset && Bal(l, legs[k].tokenOut, self) != 0
    requires forall j :: i <= j < k ==> legs[j].tokenOut == asset || Bal(l, legs[j].tokenOut, self) == 0
    ensures FirstDirty(l, self, asset, legs, i)
            == Some(DirtyIntermediateBalance(legs[k].tokenOut, Bal(l, legs[k].tokenOut, self)))
    decreases k - i
  {
    hide Bal;
    if i < k {
      FirstDirtyDecides(l, self, asset, legs, i + 1, k);
    }
  }

  // ---- start and startPacked ----

  /** Why start refuses, each reason only after the ones before it were passed. */
  lemma StartRefusals(c: Chain, sender: Address, route: Route, w: World)
    ensures var e, s := StartError(c, sender, route, w), w.store;
            && (sender != s.owner ==> e == Some(Unauthorized))
            && (sender == s.owner && s.operationEntered ==> e == Some(Reentrant))
            && (sender == s.owner && !s.operationEntered ==>
                  && (s.paused ==> e == Some(Paused))
                  && (!s.paused && (s.activeRouteHash != ZeroHash || s.activeBatchHash != ZeroHash) ==>
                        e == Some(Reentrant))
                  && (!s.paused && s.activeRouteHash == ZeroHash == s.activeBatchHash ==>
                        && (c.number > route.targetBlock || c.timestamp > route.deadline ==> e == Some(StaleRoute))
                        && (c.number <= route.targetBlock && c.timestamp <= route.deadline ==>
                              && (RouteDigest(route) != route.routeHash ==> e == Some(InvalidRoute))
                              && (RouteDigest(route) == route.routeHash ==>
                                    && (route.routeHash in s.commitmentUsed ==> e == Some(CommitmentAlreadyUsed))
                                    && (route.routeHash !in s.commitmentUsed ==>
                                          && (RouteError(s, route).Some? ==> e == RouteError(s, route))
                                          && (RouteError(s, route).None? ==>
                                                e == FirstDirty(w.ledger, c.self, route.asset, route.legs, 0)))))))
  {
    hide RouteError, FirstDirty, RouteDigest;
  }

  /** Why startPacked refuses. A used batch is the last reason, after its candidates were looked at. */
  lemma StartPackedRefusals(c: Chain, sender: Address, packed: seq<Byte>, w: World)
    ensures var e, s := StartPackedError(c, sender, packed, w), w.store;
            && (sender != s.owner ==> e == Some(Unauthorized))
            && (sender == s.owner && s.operationEntered ==> e == Some(Reentrant))
            && (sender == s.owner && !s.operationEntered ==>
                  && (s.paused ==> e == Some(Paused))
                  && (!s.paused && (s.activeRouteHash != ZeroHash || s.activeBatchHash != ZeroHash) ==>
                        e == Some(Reentrant))
                  && (!s.paused && s.activeRouteHash == ZeroHash == s.activeBatchHash ==>
                        && (ParseBatch(packed).Failure? ==> e == Some(InvalidPackedBatch))
                        && (ParseBatch(packed).Success? ==>
                              var b := ParseBatch(packed).value;
                              && (c.number > b.targetBlock || c.timestamp > b.deadline ==> e == Some(StaleRoute))
                              && (c.number <= b.targetBlock && c.timestamp <= b.deadline ==>
                                    && (BatchError(s, b).Some? ==> e == BatchError(s, b))
                                    && (BatchError(s, b).None? ==>
                                          var dirty := FirstDirtyCandidate(w.ledger, c.self, b.asset, b.candidates, 0);
                                          && (dirty.Some? ==> e == dirty)
                                          && (dirty.None? && Digest(RawBytes(packed)) in s.commitmentUsed ==>
                                                e == Some(CommitmentAlreadyUsed)))))))
  {
    hide BatchError, FirstDirtyCandidate, ParseBatch;
  }

  /** How an operation that began ends: with the pool's failure, or by what the balance then misses. */
  lemma ClosingRefusals(
      c: Chain, sender: Address, route: Route, packed: seq<Byte>, pool: PoolCode, w: World)
    ensures StartError(c, sender, route, w).None? ==>
              var r := DoStart(c, sender, route, pool, w);
              var q := RunPool(c, pool, route.asset, route.amount, EncodedRoute(route), StartOpened(c, route, w));
              && (q.Fail? ==> r == Fail(q.error))
              && (q.Ok? ==>
                    var held, needed := Bal(q.world.ledger, route.asset, c.self),
                                        Bal(w.ledger, route.asset, c.self) + route.minProfit;
                    && (needed > MAX_UINT ==> r == Fail(ArithmeticPanic))
                    && (needed <= MAX_UINT && held < needed ==> r == Fail(ProfitTooLow))
                    && (r.Ok? <==> needed <= MAX_UINT && held >= needed))
    ensures StartPackedError(c, sender, packed, w).None? ==>
              var b, r := ParseBatch(packed).value, DoStartPacked(c, sender, packed, pool, w);
              var q := RunPool(c, pool, b.asset, b.amount, RawParams(packed), PackedOpened(c, packed, b.asset, w));
              && (q.Fail? ==> r == Fail(q.error))
              && (q.Ok? && q.world.store.activeSelectedCandidateId == 0 ==> r == Fail(NoCandidateSucceeded))
              && (q.Ok? && q.world.store.activeSelectedCandidateId != 0 ==>
                    var held, needed := Bal(q.world.ledger, b.asset, c.self),
                                        Bal(w.ledger, b.asset, c.self) + q.world.store.activeSelectedMinProfit;
                    && (needed > MAX_UINT ==> r == Fail(ArithmeticPanic))
                    && (needed <= MAX_UINT && held < needed ==> r == Fail(ProfitTooLow))
                    && (r.Ok? <==> needed <= MAX_UINT && held >= needed))
  {
    hide RunPool, StartError, StartPackedError, ParseBatch, Bal;
    PoolKeepsOperation(c, pool, route.asset, route.amount, EncodedRoute(route), StartOpened(c, route, w));
    if StartPackedError(c, sender, packed, w).None? {
      StartPackedIsClean(c, sender, packed, w);
      var b := ParseBatch(packed).value;
      PoolKeepsOperation(c, pool, b.asset, b.amount, RawParams(packed), PackedOpened(c, packed, b.asset, w));
    }
  }

  /** An attempt is the contract's own, within a packed operation, on two to four legs from the asset back to it. */
  lemma AttemptNeeds(
      c: Chain, sender: Address, candidate: Candidate, asset: Address, amount: nat, premium: nat, market: Market,
      w: World)
    ensures var r := DoAttempt(c, sender, candidate, asset, amount, premium, market, w);
            && (sender != c.self ==> r == Fail(Unauthorized))
            && (sender == c.self && w.store.activeBatchHash == ZeroHash ==> r == Fail(InvalidPackedBatch))
            && (r.Ok? ==>
                  && sender == c.self && w.store.activeBatchHash != ZeroHash && 2 <= |candidate.legs| <= 4
                  && candidate.legs[0].tokenIn == asset == candidate.legs[|candidate.legs| - 1].tokenOut
                  && r.value == Bal(r.world.ledger, asset, c.self))
  {
    hide ExecuteLegs, Bal;
  }

  /** The attempt fails with the first failure of its legs, or for want of profit. */
  lemma AttemptFailures(
      c: Chain, candidate: Candidate, asset: Address, amount: nat, premium: nat, market: Market, w: World)
    requires w.store.activeBatchHash != ZeroHash && 2 <= |candidate.legs| <= 4
    requires candidate.legs[0].tokenIn == asset == candidate.legs[|candidate.legs| - 1].tokenOut
    ensures var r := DoAttempt(c, c.self, candidate, asset, amount, premium, market, w);
            var q := ExecuteLegs(c, market, candidate.legs, 0, amount, w);
            var needed := Bal(w.ledger, asset, c.self) + premium + candidate.minProfit;
            && (q.Fail? ==> r == q)
            && (q.Ok? && needed > MAX_UINT ==> r == Fail(ArithmeticPanic))
            && (q.Ok? && needed <= MAX_UINT && Bal(q.world.ledger, asset, c.self) < needed ==> r == Fail(ProfitTooLow))
  {
    hide ExecuteLegs, Bal;
  }

  /** The token's own code for this call, if it has any, runs through and does not answer false. */
  predicate SaysTrue(c: Chain, market: Market, call: TokenCall, w: World) {
    (w.ledger, call) in market.hooks ==>
      var r := RunTree(c, market.hooks[(w.ledger, call)], w);
      r.Ok? && r.value != 0
  }

  /** The world that the token's own code leaves. */
  function Leaves(c: Chain, market: Market, call: TokenCall, w: World): World
    requires SaysTrue(c, market, call, w)
  {
    if (w.ledger, call) in market.hooks then RunTree(c, market.hooks[(w.ledger, call)], w).world else w
  }

  /**
   With tokens of any kind an approval needs a true answer to each of its calls, the clearing one and, unless
   nothing is to be allowed, the setting one; a token that reverts or answers false is named in the error.
   */
  lemma ApprovalNeedsTrue(c: Chain, market: Market, token: Address, spender: Address, amount: nat, w: World)
    requires !c.honest
    ensures var r, clear := ForceApprove(c, market, token, spender, amount, w), ApproveCall(token, spender, 0);
            var cleared := w.(ledger := Approve(w.ledger, token, c.self, spender, 0));
            && (r.Fail? ==> r == Fail(TokenCallFailed(token)))
            && (r.Ok? ==> SaysTrue(c, market, clear, cleared))
            && (SaysTrue(c, market, clear, cleared) ==>
                  var w1, setting := Leaves(c, market, clear, cleared), ApproveCall(token, spender, amount);
                  var given := w1.(ledger := Approve(w1.ledger, token, c.self, spender, amount));
                  && (amount == 0 ==> r.Ok? && r.world == w1)
                  && (amount != 0 ==>
                        && (r.Ok? <==> SaysTrue(c, market, setting, given))
                        && (r.Ok? ==> r.world == Leaves(c, market, setting, given))))
  {
    hide RunTree, Approve, SaysTrue, Leaves, ApproveOnce;
    OneApproval(c, market, token, spender, 0, w);
    var first := ApproveOnce(c, market, token, spender, 0, w);
    if first.Ok? {
      OneApproval(c, market, token, spender, amount, first.world);
    }
  }

  lemma OneApproval(c: Chain, market: Market, token: Address, spender: Address, amount: nat, w: World)
    requires !c.honest
    ensures var r, call := ApproveOnce(c, market, token, spender, amount, w), ApproveCall(token, spender, amount);
            var given := w.(ledger := Approve(w.ledger, token, c.self, spender, amount));
            && (r.Fail? ==> r == Fail(TokenCallFailed(token)))
            && (r.Ok? <==> SaysTrue(c, market, call, given))
            && (r.Ok? ==> r.world == Leaves(c, market, call, given))
  {
    hide RunTree, Approve;
  }

  /** With tokens of any kind a sweep needs a true answer too. */
  lemma SweepNeedsTrue(
      c: Chain, sender: Address, token: Address, to: Address, amount: nat, market: Market, w: World)
    requires !c.honest
    ensures var r := DoSweep(c, sender, token, to, amount, market, w);
            var sent := Transfer(w.ledger, token, c.self, to, amount);
            r.Ok? <==> && sender == w.store.owner && Idle(w.store) && sent.Some?
                       && SaysTrue(c, market, TransferCall(token, to, amount),
                                   w.(ledger := sent.value, swept := w.swept[token := Swept(w, token) + amount]))
  {
    hide RunTree, Transfer;
  }

  /**
   A leg fails for no input, with one of its calls, or because the gain is not what was asked or reported; with
   honest tokens the approvals never fail.
   */
  lemma LegFailures(c: Chain, market: Market, legs: seq<Leg>, i: nat, firstAmount: nat, w: World)
    requires i < |legs|
    ensures var r, leg, x := RunLeg(c, market, legs, i, firstAmount, w), legs[i], LegInput(c, legs, i, firstAmount, w);
            && (x == 0 ==> r == Fail(InvalidRoute))
            && (x > 0 ==>
                  var approved := ForceApprove(c, market, leg.tokenIn, leg.adapter, x, w);
                  && (c.honest ==> approved.Ok?)
                  && (approved.Fail? ==> r == Fail(approved.error))
                  && (approved.Ok? ==>
                        var swapped := RunSwap(c, market, SwapOf(c, leg, x), approved.world);
                        && (swapped.Fail? ==> r == Fail(swapped.error))
                        && (swapped.Ok? ==>
                              var reset := ForceApprove(c, market, leg.tokenIn, leg.adapter, 0, swapped.world);
                              && (c.honest ==> reset.Ok?)
                              && (reset.Fail? ==> r == Fail(reset.error))
                              && (reset.Ok? ==>
                                    var before := Bal(w.ledger, leg.tokenOut, c.self);
                                    var after := Bal(reset.world.ledger, leg.tokenOut, c.self);
                                    var met := after >= before + leg.minOut && swapped.value == after - before;
                                    && (after < before ==> r == Fail(ArithmeticPanic))
                                    && (after >= before && !met ==> r == Fail(SwapOutputMismatch(i)))
                                    && (met ==> r.Ok? && r.world == reset.world)))))
  {
    hide ForceApprove, RunSwap, Bal, Allowed;
    var leg, x := legs[i], LegInput(c, legs, i, firstAmount, w);
    if c.honest {
      HonestForceApprove(c, market, leg.tokenIn, leg.adapter, x, w);
      var approved := ForceApprove(c, market, leg.tokenIn, leg.adapter, x, w);
      var swapped := RunSwap(c, market, SwapOf(c, leg, x), approved.world);
      if swapped.Ok? {
        HonestForceApprove(c, market, leg.tokenIn, leg.adapter, 0, swapped.world);
      }
    }
  }

  /**
   Why the callback of a route refuses: before its legs run, with them, and after them for each thing the balance
   misses.
   */
  lemma RouteCallbackRefusals(
      c: Chain, market: Market, asset: Address, amount: nat, premium: nat, route: Route, raw: seq<Byte>, w: World)
    ensures RouteCallback(c, market, asset, amount, premium, RawParams(raw), w) == Fail(Undecodable)
    ensures var r, s := RouteCallback(c, market, asset, amount, premium, EncodedRoute(route), w), w.store;
            && (s.activeRouteHash == ZeroHash || route.routeHash != s.activeRouteHash ==> r == Fail(InvalidRoute))
            && (asset != route.asset || amount != route.amount || RouteDigest(route) != route.routeHash ==>
                  r == Fail(InvalidRoute))
            && (s.activeRouteHash == route.routeHash == RouteDigest(route) && asset == route.asset
                 && amount == route.amount ==>
                  && (c.number > route.targetBlock || c.timestamp > route.deadline ==> r == Fail(StaleRoute))
                  && (c.number <= route.targetBlock && c.timestamp <= route.deadline ==>
                        && (RouteError(s, route).Some? ==> r == Fail(RouteError(s, route).value))
                        && (RouteError(s, route).None? ==>
                              var q := ExecuteLegs(c, market, route.legs, 0, amount, w);
                              && (q.Fail? ==> r == q)
                              && (q.Ok? ==>
                                    var owed, held := amount + premium, Bal(q.world.ledger, asset, c.self);
                                    var needed := q.world.store.activePreLoanBalance + owed + route.minProfit;
                                    && (needed > MAX_UINT ==> r == Fail(ArithmeticPanic))
                                    && (needed <= MAX_UINT && held < owed ==> r == Fail(InsufficientRepayment))
                                    && (needed <= MAX_UINT && owed <= held < needed ==> r == Fail(ProfitTooLow))))))
  {
    hide RouteError, ExecuteLegs, ForceApprove, Bal;
  }

  /** Why the packed callback refuses. */
  lemma PackedCallbackRefusals(
      c: Chain, market: Market, asset: Address, amount: nat, premium: nat, params: Params, w: World)
    ensures var r := PackedCallback(c, market, asset, amount, premium, params, w);
            && (ParamsHash(params) != w.store.activeBatchHash ==> r == Fail(InvalidPackedBatch))
            && (params.RawParams? && ParseBatch(params.raw).Failure? ==> r == Fail(InvalidPackedBatch))
            && (params.RawParams? && ParamsHash(params) == w.store.activeBatchHash
                 && ParseBatch(params.raw).Success? ==>
                  var b := ParseBatch(params.raw).value;
                  && (asset != b.asset || amount != b.amount ==> r == Fail(InvalidPackedBatch))
                  && (asset == b.asset && amount == b.amount ==>
                        && (c.number > b.targetBlock || c.timestamp > b.deadline ==> r == Fail(StaleRoute))
                        && (c.number <= b.targetBlock && c.timestamp <= b.deadline ==>
                              && (BatchError(w.store, b).Some? ==> r == Fail(BatchError(w.store, b).value))
                              && (BatchError(w.store, b).None? ==>
                                    var tried := TryCandidates(c, market, b.candidates, 0, asset, amount, premium, w);
                                    && (tried.Fail? ==> r == Fail(NoCandidateSucceeded))
                                    && (tried.Ok? && amount + premium > MAX_UINT ==> r == Fail(ArithmeticPanic))))))
  {
    hide BatchError, Settle, ParseBatch, DoAttempt, TryCandidates;
    if params.RawParams? && ParseBatch(params.raw).Success? {
      var b := ParseBatch(params.raw).value;
      SelectsFirstSuccess(c, market, b.candidates, 0, asset, amount, premium, w);
    }
  }

  /** The end of a callback refuses for overflow, then for want of profit. */
  lemma SettleRefusals(c: Chain, market: Market, asset: Address, owed: nat, minProfit: nat, w: World)
    ensures var r := Settle(c, market, asset, owed, minProfit, w);
            var needed := w.store.activePreLoanBalance + owed + minProfit;
            && (needed > MAX_UINT ==> r == Fail(ArithmeticPanic))
            && (needed <= MAX_UINT && Bal(w.ledger, asset, c.self) < needed ==> r == Fail(ProfitTooLow))
            && (needed <= MAX_UINT && Bal(w.ledger, asset, c.self) >= needed ==>
                  r == ForceApprove(c, market, asset, c.pool, owed, w))
  {
    hide ForceApprove, Bal;
  }

  // ---- the owner's messages ----

  /** A setter refuses a stranger before it looks at the locks; acceptance looks at the locks first. */
  lemma SetterRefusals(c: Chain, sender: Address, address: Address, allowed: bool, value: bool, w: World)
    ensures forall entry :: entry in {SetAdapter(address, allowed), SetToken(address, allowed), SetPaused(value)} ==>
              && (sender != w.store.owner ==> Call(c, sender, entry, w) == Fail(Unauthorized))
              && (sender == w.store.owner && !Idle(w.store) ==> Call(c, sender, entry, w) == Fail(Reentrant))
    ensures sender != w.store.owner ==> Call(c, sender, TransferOwnership(address), w) == Fail(Unauthorized)
    ensures sender == w.store.owner && !Idle(w.store) ==>
              Call(c, sender, TransferOwnership(address), w) == Fail(Reentrant)
    ensures sender == w.store.owner && Idle(w.store) && address == 0 ==>
              Call(c, sender, TransferOwnership(address), w) == Fail(Unauthorized)
    ensures !Idle(w.store) ==> Call(c, sender, AcceptOwnership, w) == Fail(Reentrant)
    ensures Idle(w.store) && sender != w.store.pendingOwner ==>
              Call(c, sender, AcceptOwnership, w) == Fail(Unauthorized)
  {
  }

  /** The public getters answer what was set. */
  lemma GettersFollow(c: Chain, sender: Address, address: Address, allowed: bool, w: World)
    ensures var r := Call(c, sender, SetAdapter(address, allowed), w);
            r.Ok? ==> Answer(r.world.store, AllowsAdapter(address)) == allowed
    ensures var r := Call(c, sender, SetToken(address, allowed), w);
            r.Ok? ==> Answer(r.world.store, AllowsToken(address)) == allowed
    ensures var r := Call(c, sender, SetPaused(allowed), w);
            r.Ok? ==> Answer(r.world.store, IsPaused) == allowed
    ensures var r := Call(c, sender, TransferOwnership(address), w);
            r.Ok? ==> Answer(r.world.store, PendingOwnerIs(address)) && Answer(r.world.store, OwnerIs(sender))
    ensures var r := Call(c, sender, AcceptOwnership, w);
            && (r.Ok? <==> Idle(w.store) && Answer(w.store, PendingOwnerIs(sender)))
            && (r.Ok? ==> Answer(r.world.store, OwnerIs(sender)) && Answer(r.world.store, PendingOwnerIs(0)))
  {
  }

  /** A commitment counts as used from its committed operation on, and not before. */
  lemma CommitmentGetsUsed(
      c: Chain, sender: Address, route: Route, packed: seq<Byte>, pool: PoolCode, w: World)
    requires AtRest(w.store)
    ensures var r, used := DoStart(c, sender, route, pool, w), HasUsed(route.routeHash);
            r.Ok? ==> !Answer(w.store, used) && Answer(r.world.store, used)
    ensures var r, used := DoStartPacked(c, sender, packed, pool, w), HasUsed(Digest(RawBytes(packed)));
            r.Ok? ==> !Answer(w.store, used) && Answer(r.world.store, used)
  {
    hide RunPool, RouteError, FirstDirty, FirstDirtyCandidate, RouteDigest, BatchError, ParseBatch, Bal;
    StartLeavesStore(c, sender, route, pool, w);
    StartPackedLeavesStore(c, sender, packed, pool, w);
  }

  /** With honest tokens a sweep succeeds exactly for the owner of an idle contract that holds the amount. */
  lemma SweepSucceedsExactly(
      c: Chain, sender: Address, token: Address, to: Address, amount: nat, market: Market, w: World)
    requires c.honest && Conserved(w.ledger)
    ensures var r := DoSweep(c, sender, token, to, amount, market, w);
            && (r.Ok? <==> sender == w.store.owner && Idle(w.store) && amount <= Bal(w.ledger, token, c.self))
            && (sender != w.store.owner ==> r == Fail(Unauthorized))
            && (sender == w.store.owner && !Idle(w.store) ==> r == Fail(Reentrant))
            && (sender == w.store.owner && Idle(w.store) && amount > Bal(w.ledger, token, c.self) ==>
                  r == Fail(TokenCallFailed(token)))
  {
    hide Bal, Transfer, Conserved;
    TransferSucceeds(w.ledger, token, c.self, to, amount);
  }

  // ---- a fresh deployment ----

  /**
   A fresh contract obeys its deployer alone and is paused: no operation begins, and even unpaused none
   would, until the owner has allowed tokens.
   */
  lemma FreshContract(
      c: Chain, l: Ledger, deployer: Address, sender: Address, route: Route, packed: seq<Byte>, pool: PoolCode)
    ensures var w := World(l, DeployedStore(deployer), [], map[]);
            var unpaused := Call(c, deployer, SetPaused(false), w);
            && AtRest(w.store) && w.store.commitmentUsed == {} && w.store.pendingOwner == 0
            && (forall t: Address :: Swept(w, t) == 0)
            && DoStart(c, deployer, route, pool, w) == Fail(Paused)
            && DoStartPacked(c, deployer, packed, pool, w) == Fail(Paused)
            && (sender != deployer ==> DoStart(c, sender, route, pool, w) == Fail(Unauthorized))
            && unpaused.Ok? && !unpaused.world.store.paused
            && DoStart(c, deployer, route, pool, unpaused.world).Fail?
            && DoStartPacked(c, deployer, packed, pool, unpaused.world).Fail?
  {
    hide RunPool, FirstDirty, FirstDirtyCandidate, RouteDigest, ParseBatch, FirstLegError, FirstCandidateError;
  }
}
