/**
 When an operation commits. With honest tokens and pool the late checks never fire: after
 validation and funding, everything depends on the callback, and for a packed batch on whether
 some candidate's attempt succeeds.
 */
module ExecutorLiveness {
  import opened Bytes
  import opened PackedFormat
  import opened TokenLedger
  import opened Commitment
  import opened ExecutorModel
  import opened ExecutorSafety
  import opened ExecutorValidation
  import opened ExecutorCustody
  import opened ExecutorFallback
  import opened ExecutorRuns

  /** The pool can compute its premium in a word and has the amount to lend. */
  predicate Fundable(c: Chain, premiumBps: nat, asset: Address, amount: nat, l: Ledger) {
    amount * premiumBps + 5000 <= MAX_UINT && amount <= Bal(l, asset, c.pool)
  }

  function Lent(c: Chain, asset: Address, amount: nat, w: World): World
    requires Transfer(w.ledger, asset, c.pool, c.self, amount).Some?
  {
    w.(ledger := Transfer(w.ledger, asset, c.pool, c.self, amount).value)
  }

  /** After a settled callback the pool's pull cannot fail. */
  lemma PullSucceeds(c: Chain, asset: Address, owed: nat, minProfit: nat, w: World, w1: World)
    requires Settled(c, asset, owed, minProfit, w, w1) && Conserved(w.ledger)
    ensures TransferFrom(w1.ledger, c.unlimited, asset, c.pool, c.self, c.pool, owed).Some?
  {
    hide Bal, Allowed, Conserved, TransferFrom, Closed;
    TransferFromSucceeds(w1.ledger, c.unlimited, asset, c.pool, c.self, c.pool, owed);
  }

  /** The honest loan goes through exactly when it is funded and the callback goes through. */
  lemma LoanIffCallback(
      c: Chain, premiumBps: nat, market: Market, asset: Address, amount: nat, params: Params, w: World)
    requires c.honest && c.self != c.pool && w.store.operationEntered
    requires Closed(c, w.ledger) && CleanParams(c, w.ledger, params) && Conserved(w.ledger)
    requires match params
             case EncodedRoute(r) => r.asset == asset
             case RawParams(raw) => ParseBatch(raw).Success? ==> ParseBatch(raw).value.asset == asset
    ensures Fundable(c, premiumBps, asset, amount, w.ledger) ==> Transfer(w.ledger, asset, c.pool, c.self, amount).Some?
    ensures FlashLoan(c, premiumBps, market, asset, amount, params, w).Ok?
       <==> Fundable(c, premiumBps, asset, amount, w.ledger)
            && DoExecuteOperation(c, c.pool, asset, amount, Premium(amount, premiumBps), c.self, params, market,
                                  Lent(c, asset, amount, w)).Ok?
  {
    hide Bal, Conserved, Transfer, TransferFrom, DoExecuteOperation, CleanParams, Closed, Settled, Premium, ParseBatch;
    var premium := Premium(amount, premiumBps);
    TransferSucceeds(w.ledger, asset, c.pool, c.self, amount);
    if Fundable(c, premiumBps, asset, amount, w.ledger) {
      CleanAfterLoan(c, w.ledger, asset, amount, params);
      var lent := Lent(c, asset, amount, w);
      CallbackSettles(c, market, asset, amount, premium, params, lent);
      var r := DoExecuteOperation(c, c.pool, asset, amount, premium, c.self, params, market, lent);
      if r.Ok? {
        PullSucceeds(c, asset, amount + premium, Promised(params, r.world.store), lent, r.world);
      }
    }
  }

  /**
   start commits exactly when it passes validation, the pool can lend, and the callback goes
   through: the profit check after the loan never fires. The asset then has at least the
   promised profit more than before, and the one new log entry says what was committed, charged and gained.
   */
  lemma StartCommitsIffCallback(c: Chain, sender: Address, route: Route, premiumBps: nat, market: Market, w: World)
    requires c.honest && c.self != c.pool && Invariant(c, w)
    ensures var begun := StartOpened(c, route, w);
            var r := DoStart(c, sender, route, HonestPool(premiumBps, market), w);
            && (Fundable(c, premiumBps, route.asset, route.amount, w.ledger) ==>
                  Transfer(w.ledger, route.asset, c.pool, c.self, route.amount).Some?)
            && (r.Ok? <==>
                  && StartError(c, sender, route, w).None?
                  && Fundable(c, premiumBps, route.asset, route.amount, w.ledger)
                  && DoExecuteOperation(c, c.pool, route.asset, route.amount, Premium(route.amount, premiumBps), c.self,
                                        EncodedRoute(route), market, Lent(c, route.asset, route.amount, begun)).Ok?)
            && (r.Ok? ==>
                  && Bal(r.world.ledger, route.asset, c.self) >= Bal(w.ledger, route.asset, c.self) + route.minProfit
                  && r.world.events
                     == w.events + [RouteExecuted(route.routeHash, route.asset, route.amount,
                         Premium(route.amount, premiumBps),
                                                  Bal(r.world.ledger, route.asset, c.self)
                                                      - Bal(w.ledger, route.asset, c.self))])
  {
    hide Bal, Conserved, Transfer, TransferFrom, FlashLoan, DoExecuteOperation, Clean, Closed, Premium, StartError,
         PoolAtRest, Logged;
    var begun := StartOpened(c, route, w);
    TransferSucceeds(w.ledger, route.asset, c.pool, c.self, route.amount);
    if StartError(c, sender, route, w).None? {
      StartIsClean(c, sender, route, w);
      LoanIffCallback(c, premiumBps, market, route.asset, route.amount, EncodedRoute(route), begun);
      var q := FlashLoan(c, premiumBps, market, route.asset, route.amount, EncodedRoute(route), begun);
      assert RunPool(c, HonestPool(premiumBps, market), route.asset, route.amount, EncodedRoute(route), begun) == q;
      if q.Ok? {
        FlashLoanRepaid(c, premiumBps, market, route.asset, route.amount, EncodedRoute(route), begun);
        PoolKeepsOperation(c, HonestPool(premiumBps, market), route.asset, route.amount, EncodedRoute(route), begun);
        LoanReportsPremium(c, premiumBps, market, route.asset, route.amount, EncodedRoute(route), begun);
        BalanceFitsWord(q.world.ledger, route.asset, c.self);
      }
    }
  }

  // ---- packed ----

  /** The world in which every candidate of a batch is attempted: opened, funded, both locks held. */
  function Attempting(c: Chain, packed: seq<Byte>, asset: Address, amount: nat, w: World): World
    requires Transfer(w.ledger, asset, c.pool, c.self, amount).Some?
  {
    var lent := Lent(c, asset, amount, PackedOpened(c, packed, asset, w));
    lent.(store := lent.store.(callbackEntered := true))
  }

  /** The ledger after the pool was approved for what is owed and pulled it. */
  function PaidBack(c: Chain, asset: Address, owed: nat, l: Ledger): Option<Ledger> {
    var l1 := Approve(l, asset, c.self, c.pool, 0);
    var l2 := if owed != 0 then Approve(l1, asset, c.self, c.pool, owed) else l1;
    TransferFrom(l2, c.unlimited, asset, c.pool, c.self, c.pool, owed)
  }

  lemma HonestSettleLedger(c: Chain, market: Market, asset: Address, owed: nat, minProfit: nat, w: World)
    requires c.honest && w.store.activePreLoanBalance + owed + minProfit <= MAX_UINT
    requires Bal(w.ledger, asset, c.self) >= w.store.activePreLoanBalance + owed + minProfit
    ensures var l1 := Approve(w.ledger, asset, c.self, c.pool, 0);
            Settle(c, market, asset, owed, minProfit, w)
            == Ok(w.(ledger := if owed != 0 then Approve(l1, asset, c.self, c.pool, owed) else l1), 1)
  {
    hide Bal, Approve;
    HonestApproveOnce(c, market, asset, c.pool, 0, w);
    HonestApproveOnce(c, market, asset, c.pool, owed, w.(ledger := Approve(w.ledger, asset, c.self, c.pool, 0)));
  }

  /** A successful attempt has earned loan, premium and profit over the balance it started from. */
  lemma AttemptEarns(
      c: Chain, candidate: Candidate, asset: Address, amount: nat, premium: nat, market: Market, w: World)
    requires DoAttempt(c, c.self, candidate, asset, amount, premium, market, w).Ok?
    ensures var w' := DoAttempt(c, c.self, candidate, asset, amount, premium, market, w).world;
            && Bal(w.ledger, asset, c.self) + premium + candidate.minProfit <= MAX_UINT
            && Bal(w'.ledger, asset, c.self) >= Bal(w.ledger, asset, c.self) + premium + candidate.minProfit
  {
    hide Bal, ExecuteLegs;
  }

  /** Within the callback, some successful attempt is enough: the checks after the loop never fire. */
  lemma CallbackIffAttempt(c: Chain, packed: seq<Byte>, amount: nat, premium: nat, market: Market, v: World)
    requires c.honest && ParseBatch(packed).Success?
    requires var b := ParseBatch(packed).value;
             && v.store.activeBatchHash == ParamsHash(RawParams(packed)) && Locked(v.store)
             && b.amount == amount && !Stale(c, b.targetBlock, b.deadline) && BatchError(v.store, b).None?
             && Bal(v.ledger, b.asset, c.self) == v.store.activePreLoanBalance + amount
    ensures var b := ParseBatch(packed).value;
            var tried := TryCandidates(c, market, b.candidates, 0, b.asset, amount, premium, v);
            var r := PackedCallback(c, market, b.asset, amount, premium, RawParams(packed), v);
            && (r.Ok? <==> tried.Ok?)
            && (r.Ok? ==>
                  && tried.value < |b.candidates|
                  && r.world.store == tried.world.store.(activePremium := premium)
                  && r.world.events == v.events && r.world.swept == v.swept
                  && var l1 := Approve(tried.world.ledger, b.asset, c.self, c.pool, 0);
                     r.world.ledger == if amount + premium != 0
                         then Approve(l1, b.asset, c.self, c.pool, amount + premium) else l1)
  {
    hide Bal, TryCandidates, Settle, BatchError, ParseBatch, DoAttempt, Approve;
    var b := ParseBatch(packed).value;
    var tried := TryCandidates(c, market, b.candidates, 0, b.asset, amount, premium, v);
    SelectsFirstSuccess(c, market, b.candidates, 0, b.asset, amount, premium, v);
    if tried.Ok? {
      var k := tried.value;
      AttemptEarns(c, b.candidates[k], b.asset, amount, premium, market, v);
      AttemptFreezesStorage(c, b.candidates[k], b.asset, amount, premium, market, v, v);
      var w1 := tried.world.(store := tried.world.store.(activePremium := premium));
      HonestSettleLedger(c, market, b.asset, amount + premium, b.candidates[k].minProfit, w1);
    }
  }

  /** What a committed packed operation did, in terms of the attempts: the least success, paid back. */
  ghost predicate PackedEffect(c: Chain, b: Batch, premium: nat, market: Market, v: World, w: World, w': World) {
    exists k: nat :: PackedChoice(c, b, premium, market, v, k) && PackedChange(c, b, premium, market, v, k, w, w')
  }

  predicate PackedChoice(c: Chain, b: Batch, premium: nat, market: Market, v: World, k: nat) {
    && k < |b.candidates|
    && DoAttempt(c, c.self, b.candidates[k], b.asset, b.amount, premium, market, v).Ok?
    && forall j :: 0 <= j < k ==> DoAttempt(c, c.self, b.candidates[j], b.asset, b.amount, premium, market, v).Fail?
  }

  ghost predicate PackedChange(c: Chain, b: Batch, premium: nat, market: Market, v: World, k: nat, w: World, w': World)
    requires PackedChoice(c, b, premium, market, v, k)
  {
    var ended := DoAttempt(c, c.self, b.candidates[k], b.asset, b.amount, premium, market, v).world.ledger;
    && PaidBack(c, b.asset, b.amount + premium, ended) == Some(w'.ledger)
    && Bal(w'.ledger, b.asset, c.self) >= Bal(w.ledger, b.asset, c.self) + b.candidates[k].minProfit
    && |w'.events| == |w.events| + 1
    && var e := w'.events[|w.events|];
       e == PackedRouteExecuted(e.commitment, b.candidates[k].candidateId, k, b.asset, b.amount, premium,
                                Bal(w'.ledger, b.asset, c.self) - Bal(w.ledger, b.asset, c.self))
  }

  /**
   startPacked commits exactly when it passes validation, the pool can lend, and some candidate's
   attempt in the funded world succeeds. The committed effect is that of the least such candidate,
   paid back, with at least its promised profit on top.
   */
  lemma PackedCommitsIffAttempt(c: Chain, sender: Address, packed: seq<Byte>, premiumBps: nat, market: Market, w: World)
    requires c.honest && c.self != c.pool && Invariant(c, w) && StartPackedError(c, sender, packed, w).None?
    ensures ParseBatch(packed).Success?
    ensures var b := ParseBatch(packed).value;
            var premium := Premium(b.amount, premiumBps);
            var r := DoStartPacked(c, sender, packed, HonestPool(premiumBps, market), w);
            && (Fundable(c, premiumBps, b.asset, b.amount, w.ledger) ==>
                  Transfer(w.ledger, b.asset, c.pool, c.self, b.amount).Some?)
            && (r.Ok? <==>
                  && Fundable(c, premiumBps, b.asset, b.amount, w.ledger)
                  && exists k :: 0 <= k < |b.candidates| &&
                       DoAttempt(c, c.self, b.candidates[k], b.asset, b.amount, premium, market,
                           Attempting(c, packed, b.asset, b.amount, w)).Ok?)
            && (r.Ok? ==> PackedEffect(c, b, premium, market, Attempting(c, packed, b.asset, b.amount, w), w, r.world))
  {
    hide Bal, Conserved, Transfer, TransferFrom, Clean, Closed, Premium, StartPackedError, PoolAtRest, Logged,
         ParseBatch, DoAttempt, BatchError, BatchAccepted, TryCandidates, PackedCallback, Stale, Approve;
    StartPackedIsClean(c, sender, packed, w);
    var b := ParseBatch(packed).value;
    var premium := Premium(b.amount, premiumBps);
    var begun := PackedOpened(c, packed, b.asset, w);
    TransferSucceeds(w.ledger, b.asset, c.pool, c.self, b.amount);
    LoanIffCallback(c, premiumBps, market, b.asset, b.amount, RawParams(packed), begun);
    if Fundable(c, premiumBps, b.asset, b.amount, w.ledger) {
      PackedWhenFunded(c, sender, packed, premiumBps, market, w);
    } else {
      NotFunded(c, sender, packed, premiumBps, market, w);
    }
  }

  lemma NotFunded(c: Chain, sender: Address, packed: seq<Byte>, premiumBps: nat, market: Market, w: World)
    requires c.honest && Conserved(w.ledger) && StartPackedError(c, sender, packed, w).None?
             && ParseBatch(packed).Success?
    requires !Fundable(c, premiumBps, ParseBatch(packed).value.asset, ParseBatch(packed).value.amount, w.ledger)
    ensures DoStartPacked(c, sender, packed, HonestPool(premiumBps, market), w).Fail?
  {
    hide Bal, Conserved, Transfer, DoExecuteOperation, StartPackedError, ParseBatch;
    var b := ParseBatch(packed).value;
    TransferSucceeds(w.ledger, b.asset, c.pool, c.self, b.amount);
    assert FlashLoan(c, premiumBps, market, b.asset, b.amount, RawParams(packed),
        PackedOpened(c, packed, b.asset, w)).Fail?;
  }

  lemma PackedWhenFunded(c: Chain, sender: Address, packed: seq<Byte>, premiumBps: nat, market: Market, w: World)
    requires c.honest && c.self != c.pool && Invariant(c, w) && StartPackedError(c, sender, packed, w).None?
             && ParseBatch(packed).Success?
    requires Fundable(c, premiumBps, ParseBatch(packed).value.asset, ParseBatch(packed).value.amount, w.ledger)
    requires Transfer(w.ledger, ParseBatch(packed).value.asset, c.pool, c.self, ParseBatch(packed).value.amount).Some?
    ensures var b := ParseBatch(packed).value;
            var premium := Premium(b.amount, premiumBps);
            var v := Attempting(c, packed, b.asset, b.amount, w);
            var r := DoStartPacked(c, sender, packed, HonestPool(premiumBps, market), w);
            && (r.Ok? <==>
                  exists k :: 0 <= k < |b.candidates| &&
                    DoAttempt(c, c.self, b.candidates[k], b.asset, b.amount, premium, market, v).Ok?)
            && (r.Ok? ==> PackedEffect(c, b, premium, market, v, w, r.world))
  {
    hide Bal, Conserved, Transfer, TransferFrom, Clean, Closed, Premium, PoolAtRest, Logged, ParseBatch, DoAttempt,
         BatchError, BatchAccepted, TryCandidates, PackedCallback, Approve;
    StartPackedIsClean(c, sender, packed, w);
    var b := ParseBatch(packed).value;
    var premium := Premium(b.amount, premiumBps);
    var begun := PackedOpened(c, packed, b.asset, w);
    var v := Attempting(c, packed, b.asset, b.amount, w);
    CleanAfterLoan(c, w.ledger, b.asset, b.amount, RawParams(packed));
    SameBatchError(w.store, v.store, b);
    CallbackIffAttempt(c, packed, b.amount, premium, market, v);
    SelectsFirstSuccess(c, market, b.candidates, 0, b.asset, b.amount, premium, v);
    LoanIffCallback(c, premiumBps, market, b.asset, b.amount, RawParams(packed), begun);
    var r := DoStartPacked(c, sender, packed, HonestPool(premiumBps, market), w);
    var q := FlashLoan(c, premiumBps, market, b.asset, b.amount, RawParams(packed), begun);
    assert RunPool(c, HonestPool(premiumBps, market), b.asset, b.amount, RawParams(packed), begun) == q;
    var tried := TryCandidates(c, market, b.candidates, 0, b.asset, b.amount, premium, v);
    if tried.Ok? {
      AttemptFreezesStorage(c, b.candidates[tried.value], b.asset, b.amount, premium, market, v, v);
      FlashLoanRepaid(c, premiumBps, market, b.asset, b.amount, RawParams(packed), begun);
      BalanceFitsWord(q.world.ledger, b.asset, c.self);
      AcceptedIdsNonzero(w.store, b, tried.value);
      assert PackedChoice(c, b, premium, market, v, tried.value);
    }
  }

  lemma AcceptedIdsNonzero(s: Store, b: Batch, k: nat)
    requires BatchAccepted(s, b) && k < |b.candidates|
    ensures b.candidates[k].candidateId != 0
  {
  }

  lemma SameBatchError(s: Store, s': Store, b: Batch)
    requires s.adapterAllowed == s'.adapterAllowed && s.tokenAllowed == s'.tokenAllowed
    requires BatchAccepted(s, b)
    ensures BatchError(s', b).None?
  {
    hide BatchError;
    BatchErrorExact(s', b);
  }
}
