/** What outside code cannot do while legs run, and what an operation cannot change at all. */
module ExecutorSafety {
  import opened Bytes
  import opened PackedFormat
  import opened TokenLedger
  import opened Commitment
  import opened ExecutorModel

  /** The two locks that hold from the start of the callback to its end. */
  predicate Locked(s: Store) {
    s.operationEntered && s.callbackEntered
  }

  /**
   r and r' are the same run seen from two storages: same success, ledger and answer, and neither storage, log nor
   history moves.
   */
  ghost predicate SameRun(r: Outcome, r': Outcome, w: World, w': World) {
    && (r.Ok? <==> r'.Ok?)
    && (r.Ok? ==>
          && r.value == r'.value
          && r.world == w.(ledger := r.world.ledger)
          && r'.world == w'.(ledger := r.world.ledger))
  }

  // ---- what outside code can see of storage ----

  /** The commitments on which two storages differ. */
  function Differ(s: Store, s': Store): set<Hash> {
    if s == s' then {} else (s.commitmentUsed - s'.commitmentUsed) + (s'.commitmentUsed - s.commitmentUsed)
  }

  /** The code never asks whether one of these commitments was used. */
  predicate NeverAsks(tree: Tree, hashes: set<Hash>)
    decreases tree
  {
    match tree
    case Done(_) => true
    case Revert => true
    case Then(act, rest) => (act.Attempt? ==> NeverAsks(act.body, hashes)) && NeverAsks(rest, hashes)
    case Look(view, yes, no) =>
      !(view.HasUsed? && view.commitment in hashes) && NeverAsks(yes, hashes) && NeverAsks(no, hashes)
  }

  /** Every public getter answers alike from both storages, except perhaps on some commitments. */
  predicate SameSettings(s: Store, s': Store) {
    && s.owner == s'.owner && s.pendingOwner == s'.pendingOwner && s.paused == s'.paused
    && s.adapterAllowed == s'.adapterAllowed && s.tokenAllowed == s'.tokenAllowed
  }

  /** The getters that the code may ask answer alike from both storages. */
  predicate LooksAlike(tree: Tree, s: Store, s': Store) {
    SameSettings(s, s') && (Differ(s, s') == {} || NeverAsks(tree, Differ(s, s')))
  }

  ghost predicate MarketNeverAsks(market: Market, hashes: set<Hash>) {
    && (forall k :: k in market.swaps ==> NeverAsks(market.swaps[k], hashes))
    && (forall k :: k in market.hooks ==> NeverAsks(market.hooks[k], hashes))
  }

  ghost predicate MarketLooksAlike(market: Market, s: Store, s': Store) {
    SameSettings(s, s') && (Differ(s, s') == {} || MarketNeverAsks(market, Differ(s, s')))
  }

  /** Storages that differ on no setting and no commitment give one answer to every question. */
  lemma AnswersAlike(view: View, s: Store, s': Store)
    requires SameSettings(s, s') && !(view.HasUsed? && view.commitment in Differ(s, s'))
    ensures Answer(s, view) == Answer(s', view)
  {
  }

  /** Under both locks every entry point that can change anything reverts, whoever calls it. */
  lemma LockedCall(c: Chain, sender: Address, entry: Entry, w: World)
    requires Locked(w.store) && sender != c.self
    ensures Call(c, sender, entry, w).Fail?
  {
    match entry {
      case SetAdapter(_, _) =>
      case SetToken(_, _) =>
      case SetPaused(_) =>
      case TransferOwnership(_) =>
      case AcceptOwnership =>
      case Start(route, pool) => assert StartError(c, sender, route, w).Some?;
      case StartPacked(packed, pool) => assert StartPackedError(c, sender, packed, w).Some?;
      case ExecuteOperation(_, _, _, _, _, _) =>
      case AttemptPackedCandidate(_, _, _, _, _) =>
      case Sweep(_, _, _, _) =>
    }
  }

  /**
   No tree of re-entrant calls changes storage under the locks, and from two storages that answer its
   questions alike it runs alike.
   */
  lemma {:induction false} LockedTree(c: Chain, tree: Tree, w: World, v: World)
    requires Locked(w.store) && Locked(v.store) && w.ledger == v.ledger && LooksAlike(tree, w.store, v.store)
    ensures SameRun(RunTree(c, tree, w), RunTree(c, tree, v), w, v)
    decreases tree
  {
    match tree {
      case Done(_) =>
      case Revert =>
      case Then(act, rest) =>
        LockedAct(c, act, w, v);
        if RunAct(c, act, w).Ok? {
          LockedTree(c, rest, RunAct(c, act, w).world, RunAct(c, act, v).world);
        }
      case Look(view, yes, no) =>
        AnswersAlike(view, w.store, v.store);
        LockedTree(c, if Answer(w.store, view) then yes else no, w, v);
    }
  }

  lemma {:induction false} LockedAct(c: Chain, act: Act, w: World, v: World)
    requires Locked(w.store) && Locked(v.store) && w.ledger == v.ledger
    requires SameSettings(w.store, v.store) && (act.Attempt? ==> LooksAlike(act.body, w.store, v.store))
    ensures SameRun(RunAct(c, act, w), RunAct(c, act, v), w, v)
    decreases act
  {
    hide Transfer, TransferFrom, Mint, Approve, Call;
    match act {
      case TransferBy(_, _, _, _) =>
      case PullBy(_, _, _, _, _) =>
      case ApproveBy(_, _, _, _) =>
      case Issue(_, _, _) =>
      case Touch(_, _) =>
      case Forge(_) =>
      case Attempt(body) => LockedTree(c, body, w, v);
      case Enter(sender, entry) =>
        if sender != c.self {
          LockedCall(c, sender, entry, w);
          LockedCall(c, sender, entry, v);
        }
    }
  }

  /** Every public getter answers alike from both storages. */
  ghost predicate AnswerAlike(s: Store, s': Store) {
    forall view :: Answer(s, view) == Answer(s', view)
  }

  /** All outside code runs alike in both worlds. */
  ghost predicate RunAlike(c: Chain, w: World, v: World) {
    forall tree :: SameRun(RunTree(c, tree, w), RunTree(c, tree, v), w, v)
  }

  /**
   Under the locks outside code can tell two storages apart exactly when some public getter answers
   differently from them; locks and active fields are out of its sight.
   */
  lemma IndistinguishableExactly(c: Chain, w: World, v: World)
    requires Locked(w.store) && Locked(v.store) && w.ledger == v.ledger
    ensures RunAlike(c, w, v) <==> AnswerAlike(w.store, v.store)
    ensures RunAlike(c, w, v)
            <==> && w.store.owner == v.store.owner && w.store.pendingOwner == v.store.pendingOwner
                 && w.store.adapterAllowed == v.store.adapterAllowed && w.store.tokenAllowed == v.store.tokenAllowed
                 && w.store.commitmentUsed == v.store.commitmentUsed && w.store.paused == v.store.paused
  {
    if w.store.owner == v.store.owner && w.store.pendingOwner == v.store.pendingOwner
       && w.store.adapterAllowed == v.store.adapterAllowed && w.store.tokenAllowed == v.store.tokenAllowed
       && w.store.commitmentUsed == v.store.commitmentUsed && w.store.paused == v.store.paused
    {
      SettingsAnswer(w.store, v.store);
    }
    hide RunTree, SameRun, Answer;
    if AnswerAlike(w.store, v.store) {
      AlikeSettings(w.store, v.store);
      forall tree
        ensures SameRun(RunTree(c, tree, w), RunTree(c, tree, v), w, v)
      {
        LockedTree(c, tree, w, v);
      }
    }
    if RunAlike(c, w, v) {
      forall view
        ensures Answer(w.store, view) == Answer(v.store, view)
      {
        ProbeTells(c, view, w, v);
      }
    }
  }

  lemma SettingsAnswer(s: Store, s': Store)
    requires s.owner == s'.owner && s.pendingOwner == s'.pendingOwner && s.paused == s'.paused
    requires s.adapterAllowed == s'.adapterAllowed && s.tokenAllowed == s'.tokenAllowed
    requires s.commitmentUsed == s'.commitmentUsed
    ensures AnswerAlike(s, s')
  {
  }

  /** One question, and success exactly on yes. */
  lemma ProbeTells(c: Chain, view: View, w: World, v: World)
    requires RunAlike(c, w, v)
    ensures Answer(w.store, view) == Answer(v.store, view)
  {
    var probe := Look(view, Done(0), Revert);
    assert SameRun(RunTree(c, probe, w), RunTree(c, probe, v), w, v);
    RunProbe(c, view, w);
    RunProbe(c, view, v);
  }

  lemma RunProbe(c: Chain, view: View, w: World)
    ensures RunTree(c, Look(view, Done(0), Revert), w).Ok? <==> Answer(w.store, view)
  {
    hide Answer;
    assert RunTree(c, Done(0), w) == Ok(w, 0);
    assert RunTree(c, Revert, w) == Fail(OutsideRevert);
    assert RunTree(c, Look(view, Done(0), Revert), w)
        == RunTree(c, if Answer(w.store, view) then Done(0) else Revert, w);
  }

  lemma AlikeSettings(s: Store, s': Store)
    requires forall view :: Answer(s, view) == Answer(s', view)
    ensures SameSettings(s, s') && Differ(s, s') == {}
  {
    assert Answer(s, OwnerIs(s.owner)) && Answer(s, PendingOwnerIs(s.pendingOwner));
    assert Answer(s, IsPaused) == Answer(s', IsPaused);
    forall a: nat
      ensures (a in s.adapterAllowed <==> a in s'.adapterAllowed) && (a in s.tokenAllowed <==> a in s'.tokenAllowed)
    {
      assert Answer(s, AllowsAdapter(a)) == Answer(s', AllowsAdapter(a));
      assert Answer(s, AllowsToken(a)) == Answer(s', AllowsToken(a));
    }
    forall h
      ensures h in s.commitmentUsed <==> h in s'.commitmentUsed
    {
      assert Answer(s, HasUsed(h)) == Answer(s', HasUsed(h));
    }
  }

  lemma LockedHook(c: Chain, market: Market, call: TokenCall, token: Address, w: World, v: World)
    requires Locked(w.store) && Locked(v.store) && w.ledger == v.ledger
    requires MarketLooksAlike(market, w.store, v.store)
    ensures SameRun(TokenHook(c, market, call, token, w), TokenHook(c, market, call, token, v), w, v)
  {
    hide RunTree;
    if (w.ledger, call) in market.hooks {
      LockedTree(c, market.hooks[(w.ledger, call)], w, v);
    }
  }

  lemma LockedApprove(c: Chain, market: Market, token: Address, spender: Address, amount: nat, w: World, v: World)
    requires Locked(w.store) && Locked(v.store) && w.ledger == v.ledger
    requires MarketLooksAlike(market, w.store, v.store)
    ensures SameRun(ForceApprove(c, market, token, spender, amount, w),
            ForceApprove(c, market, token, spender, amount, v), w, v)
  {
    hide TokenHook, Approve;
    LockedHook(c, market, ApproveCall(token, spender, 0), token,
               w.(ledger := Approve(w.ledger, token, c.self, spender, 0)),
                   v.(ledger := Approve(v.ledger, token, c.self, spender, 0)));
    var r, q := ApproveOnce(c, market, token, spender, 0, w), ApproveOnce(c, market, token, spender, 0, v);
    if r.Ok? && amount != 0 {
      LockedHook(c, market, ApproveCall(token, spender, amount), token,
                 r.world.(ledger := Approve(r.world.ledger, token, c.self, spender, amount)),
                 q.world.(ledger := Approve(q.world.ledger, token, c.self, spender, amount)));
    }
  }

  lemma LockedSwap(c: Chain, market: Market, call: SwapCall, w: World, v: World)
    requires Locked(w.store) && Locked(v.store) && w.ledger == v.ledger
    requires MarketLooksAlike(market, w.store, v.store)
    ensures SameRun(RunSwap(c, market, call, w), RunSwap(c, market, call, v), w, v)
  {
    hide RunTree;
    if (w.ledger, call) in market.swaps {
      LockedTree(c, market.swaps[(w.ledger, call)], w, v);
    }
  }

  lemma LockedLeg(c: Chain, market: Market, legs: seq<Leg>, i: nat, firstAmount: nat, w: World, v: World)
    requires Locked(w.store) && Locked(v.store) && w.ledger == v.ledger && i < |legs|
    requires MarketLooksAlike(market, w.store, v.store)
    ensures SameRun(RunLeg(c, market, legs, i, firstAmount, w), RunLeg(c, market, legs, i, firstAmount, v), w, v)
  {
    hide RunSwap, ForceApprove, Bal;
    var leg, amountIn := legs[i], LegInput(c, legs, i, firstAmount, w);
    LockedApprove(c, market, leg.tokenIn, leg.adapter, amountIn, w, v);
    var w1, v1 := ForceApprove(c, market, leg.tokenIn, leg.adapter, amountIn, w),
        ForceApprove(c, market, leg.tokenIn, leg.adapter, amountIn, v);
    if w1.Ok? {
      LockedSwap(c, market, SwapOf(c, leg, amountIn), w1.world, v1.world);
      var w2, v2 := RunSwap(c, market, SwapOf(c, leg, amountIn), w1.world),
          RunSwap(c, market, SwapOf(c, leg, amountIn), v1.world);
      if w2.Ok? {
        LockedApprove(c, market, leg.tokenIn, leg.adapter, 0, w2.world, v2.world);
      }
    }
  }

  /**
   From the moment the legs start until they finish, no storage field of the contract changes, and the
   run is the same from every storage that answers the market's questions alike.
   */
  lemma {:induction false} LegsFreezeStorage(
      c: Chain, market: Market, legs: seq<Leg>, i: nat, firstAmount: nat, w: World, v: World)
    requires Locked(w.store) && Locked(v.store) && w.ledger == v.ledger
    requires MarketLooksAlike(market, w.store, v.store)
    ensures SameRun(ExecuteLegs(c, market, legs, i, firstAmount, w), ExecuteLegs(c, market, legs, i, firstAmount, v),
            w, v)
    decreases |legs| - i
  {
    hide RunLeg;
    if i < |legs| {
      LockedLeg(c, market, legs, i, firstAmount, w, v);
      var r, q := RunLeg(c, market, legs, i, firstAmount, w), RunLeg(c, market, legs, i, firstAmount, v);
      if r.Ok? {
        LegsFreezeStorage(c, market, legs, i + 1, firstAmount, r.world, q.world);
      }
    }
  }

  lemma AttemptFreezesStorage(
      c: Chain, candidate: Candidate, asset: Address, amount: nat, premium: nat, market: Market, w: World, v: World)
    requires Locked(w.store) && Locked(v.store) && w.ledger == v.ledger
    requires MarketLooksAlike(market, w.store, v.store)
    requires w.store.activeBatchHash != ZeroHash && v.store.activeBatchHash != ZeroHash
    ensures SameRun(DoAttempt(c, c.self, candidate, asset, amount, premium, market, w),
                    DoAttempt(c, c.self, candidate, asset, amount, premium, market, v), w, v)
  {
    hide ExecuteLegs, Bal;
    LegsFreezeStorage(c, market, candidate.legs, 0, amount, w, v);
  }

  // ---- one operation ----

  /**
   Everything but the fields that a callback reports its result in: the premium and, for a packed batch, the
   selection.
   */
  ghost predicate SameOperation(w: World, w': World) {
    && w'.events == w.events && w'.swept == w.swept
    && w'.store == w.store.(activePremium := w'.store.activePremium,
                            activeSelectedCandidateId := w'.store.activeSelectedCandidateId,
                            activeSelectedCandidateIndex := w'.store.activeSelectedCandidateIndex,
                            activeSelectedMinProfit := w'.store.activeSelectedMinProfit)
    && (w.store.activeBatchHash == ZeroHash ==> w'.store == w.store.(activePremium := w'.store.activePremium))
  }

  lemma {:induction false} TryKeepsOperation(
      c: Chain, market: Market, cs: seq<Candidate>, i: nat, asset: Address, amount: nat, premium: nat, w: World)
    requires Locked(w.store) && w.store.activeBatchHash != ZeroHash
    ensures var r := TryCandidates(c, market, cs, i, asset, amount, premium, w);
            r.Ok? ==> SameOperation(w, r.world)
    decreases |cs| - i
  {
    hide DoAttempt;
    if i < |cs| {
      AttemptFreezesStorage(c, cs[i], asset, amount, premium, market, w, w);
      TryKeepsOperation(c, market, cs, i + 1, asset, amount, premium, w);
    }
  }

  lemma SettleKeepsOperation(c: Chain, market: Market, asset: Address, owed: nat, minProfit: nat, w: World)
    requires Locked(w.store)
    ensures var r := Settle(c, market, asset, owed, minProfit, w);
            r.Ok? ==> r.world == w.(ledger := r.world.ledger)
  {
    hide ForceApprove, Bal;
    LockedApprove(c, market, asset, c.pool, owed, w, w);
  }

  lemma PackedCallbackKeepsOperation(
      c: Chain, market: Market, asset: Address, amount: nat, premium: nat, params: Params, w: World)
    requires Locked(w.store) && w.store.activeBatchHash != ZeroHash
    ensures var r := PackedCallback(c, market, asset, amount, premium, params, w);
            r.Ok? ==> SameOperation(w, r.world)
  {
    hide TryCandidates, Settle, ParseBatch, BatchError;
    if PackedCallback(c, market, asset, amount, premium, params, w).Ok? {
      var b := ParseBatch(params.raw).value;
      TryKeepsOperation(c, market, b.candidates, 0, asset, amount, premium, w);
      var w1 := TryCandidates(c, market, b.candidates, 0, asset, amount, premium, w).world;
      SettleKeepsOperation(c, market, asset, amount + premium, w1.store.activeSelectedMinProfit,
          w1.(store := w1.store.(activePremium := premium)));
    }
  }

  lemma RouteCallbackKeepsOperation(
      c: Chain, market: Market, asset: Address, amount: nat, premium: nat, params: Params, w: World)
    requires Locked(w.store)
    ensures var r := RouteCallback(c, market, asset, amount, premium, params, w);
            r.Ok? ==> SameOperation(w, r.world)
  {
    hide ExecuteLegs, Settle, RouteError, Bal, RouteDigest;
    if RouteCallback(c, market, asset, amount, premium, params, w).Ok? {
      LegsFreezeStorage(c, market, params.route.legs, 0, amount, w, w);
      var w1 := ExecuteLegs(c, market, params.route.legs, 0, amount, w).world;
      SettleKeepsOperation(c, market, asset, amount + premium, params.route.minProfit,
          w1.(store := w1.store.(activePremium := premium)));
    }
  }

  /** A callback within an operation reports a premium and a selection, and changes nothing else in storage. */
  lemma CallbackKeepsOperation(
      c: Chain, sender: Address, asset: Address, amount: nat, premium: nat, initiator: Address, params: Params,
      market: Market, w: World)
    requires w.store.operationEntered
    ensures var r := DoExecuteOperation(c, sender, asset, amount, premium, initiator, params, market, w);
            r.Ok? ==> SameOperation(w, r.world)
  {
    hide PackedCallback, RouteCallback;
    var w1 := w.(store := w.store.(callbackEntered := true));
    if w1.store.activeBatchHash != ZeroHash {
      PackedCallbackKeepsOperation(c, market, asset, amount, premium, params, w1);
    } else {
      RouteCallbackKeepsOperation(c, market, asset, amount, premium, params, w1);
    }
  }

  lemma PackedCallbackPremium(
      c: Chain, market: Market, asset: Address, amount: nat, premium: nat, params: Params, w: World)
    requires Locked(w.store) && w.store.activeBatchHash != ZeroHash
    ensures var r := PackedCallback(c, market, asset, amount, premium, params, w);
            r.Ok? ==> r.world.store.activePremium == premium
  {
    hide TryCandidates, Settle, ParseBatch, BatchError;
    if PackedCallback(c, market, asset, amount, premium, params, w).Ok? {
      var b := ParseBatch(params.raw).value;
      TryKeepsOperation(c, market, b.candidates, 0, asset, amount, premium, w);
      var w1 := TryCandidates(c, market, b.candidates, 0, asset, amount, premium, w).world;
      SettleKeepsOperation(c, market, asset, amount + premium, w1.store.activeSelectedMinProfit,
          w1.(store := w1.store.(activePremium := premium)));
    }
  }

  lemma RouteCallbackPremium(
      c: Chain, market: Market, asset: Address, amount: nat, premium: nat, params: Params, w: World)
    requires Locked(w.store)
    ensures var r := RouteCallback(c, market, asset, amount, premium, params, w);
            r.Ok? ==> r.world.store.activePremium == premium
  {
    hide ExecuteLegs, Settle, RouteError, Bal, RouteDigest;
    if RouteCallback(c, market, asset, amount, premium, params, w).Ok? {
      LegsFreezeStorage(c, market, params.route.legs, 0, amount, w, w);
      var w1 := ExecuteLegs(c, market, params.route.legs, 0, amount, w).world;
      SettleKeepsOperation(c, market, asset, amount + premium, params.route.minProfit,
          w1.(store := w1.store.(activePremium := premium)));
    }
  }

  /**
   A callback that goes through leaves the premium it was charged in storage, for the event that closes the operation.
   */
  lemma CallbackReportsPremium(
      c: Chain, sender: Address, asset: Address, amount: nat, premium: nat, initiator: Address, params: Params,
      market: Market, w: World)
    requires w.store.operationEntered
    ensures var r := DoExecuteOperation(c, sender, asset, amount, premium, initiator, params, market, w);
            r.Ok? ==> r.world.store.activePremium == premium
  {
    hide PackedCallback, RouteCallback;
    var w1 := w.(store := w.store.(callbackEntered := true));
    if w1.store.activeBatchHash != ZeroHash {
      PackedCallbackPremium(c, market, asset, amount, premium, params, w1);
    } else {
      RouteCallbackPremium(c, market, asset, amount, premium, params, w1);
    }
  }

  lemma OperationCall(c: Chain, sender: Address, entry: Entry, w: World)
    requires w.store.operationEntered && sender != c.self
    ensures Call(c, sender, entry, w).Ok? ==> SameOperation(w, Call(c, sender, entry, w).world)
  {
    hide DoExecuteOperation;
    match entry {
      case SetAdapter(_, _) =>
      case SetToken(_, _) =>
      case SetPaused(_) =>
      case TransferOwnership(_) =>
      case AcceptOwnership =>
      case Start(route, pool) => assert StartError(c, sender, route, w).Some?;
      case StartPacked(packed, pool) => assert StartPackedError(c, sender, packed, w).Some?;
      case ExecuteOperation(asset, amount, premium, initiator, params, market) =>
        CallbackKeepsOperation(c, sender, asset, amount, premium, initiator, params, market, w);
      case AttemptPackedCandidate(_, _, _, _, _) =>
      case Sweep(_, _, _, _) =>
    }
  }

  /**
   Whatever the pool does during an operation, only callbacks get through, and the operation it belongs to cannot be
   exchanged.
   */
  lemma {:induction false} OperationTree(c: Chain, tree: Tree, w: World)
    requires w.store.operationEntered
    ensures RunTree(c, tree, w).Ok? ==> SameOperation(w, RunTree(c, tree, w).world)
    decreases tree
  {
    match tree {
      case Done(_) =>
      case Revert =>
      case Then(act, rest) =>
        OperationAct(c, act, w);
        if RunAct(c, act, w).Ok? {
          OperationTree(c, rest, RunAct(c, act, w).world);
        }
      case Look(view, yes, no) => OperationTree(c, if Answer(w.store, view) then yes else no, w);
    }
  }

  lemma {:induction false} OperationAct(c: Chain, act: Act, w: World)
    requires w.store.operationEntered
    ensures RunAct(c, act, w).Ok? ==> SameOperation(w, RunAct(c, act, w).world)
    decreases act
  {
    hide Transfer, TransferFrom, Mint, Approve, Call;
    match act {
      case TransferBy(_, _, _, _) =>
      case PullBy(_, _, _, _, _) =>
      case ApproveBy(_, _, _, _) =>
      case Issue(_, _, _) =>
      case Touch(_, _) =>
      case Forge(_) =>
      case Attempt(body) => OperationTree(c, body, w);
      case Enter(sender, entry) =>
        if sender != c.self {
          OperationCall(c, sender, entry, w);
        }
    }
  }

  lemma PoolKeepsOperation(c: Chain, pool: PoolCode, asset: Address, amount: nat, params: Params, w: World)
    requires w.store.operationEntered
    ensures var r := RunPool(c, pool, asset, amount, params, w);
            r.Ok? ==> SameOperation(w, r.world)
  {
    hide DoExecuteOperation, RunTree, Transfer, TransferFrom;
    match pool {
      case HonestPool(premiumBps, market) =>
        var lent := Transfer(w.ledger, asset, c.pool, c.self, amount);
        if lent.Some? {
          CallbackKeepsOperation(c, c.pool, asset, amount, Premium(amount, premiumBps), c.self, params, market,
              w.(ledger := lent.value));
        }
      case AnyPool(body) => OperationTree(c, body, w);
    }
  }

  /**
   In any world a callback gets through only from the pool, for a loan the contract initiated, and not inside another.
   */
  lemma CallbackNeedsPool(
      c: Chain, sender: Address, asset: Address, amount: nat, premium: nat, initiator: Address, params: Params,
      market: Market, w: World)
    ensures var r := DoExecuteOperation(c, sender, asset, amount, premium, initiator, params, market, w);
            && (r.Ok? ==> sender == c.pool && initiator == c.self && !w.store.callbackEntered)
            && (r.Ok? ==> !r.world.store.callbackEntered && r.value == 1)
            && (sender != c.pool || initiator != c.self ==> r == Fail(Unauthorized))
            && (sender == c.pool && initiator == c.self && w.store.callbackEntered ==> r == Fail(Reentrant))
  {
    hide PackedCallback, RouteCallback;
  }

  /**
   While a route is being executed, a callback that goes through ran that very route: the commitment
   binds every field, so it does not matter what parameters the pool hands over.
   */
  lemma CallbackRunsStartedRoute(
      c: Chain, route: Route, sender: Address, asset: Address, amount: nat, premium: nat, initiator: Address,
      params: Params, market: Market, w: World)
    requires w.store.activeRouteHash == route.routeHash == RouteDigest(route) && w.store.activeBatchHash == ZeroHash
    requires DoExecuteOperation(c, sender, asset, amount, premium, initiator, params, market, w).Ok?
    ensures params == EncodedRoute(route) && asset == route.asset && amount == route.amount
    ensures sender == c.pool && initiator == c.self && !Stale(c, route.targetBlock, route.deadline)
  {
    RouteDigestBinds(route, params.route);
  }

  /** The same for a packed batch: the callback decodes the very bytes that were started. */
  lemma CallbackRunsStartedBatch(
      c: Chain, packed: seq<Byte>, sender: Address, asset: Address, amount: nat, premium: nat, initiator: Address,
      params: Params, market: Market, w: World)
    requires w.store.activeBatchHash == ParamsHash(RawParams(packed))
    requires DoExecuteOperation(c, sender, asset, amount, premium, initiator, params, market, w).Ok?
    ensures params == RawParams(packed) && ParseBatch(packed).Success?
    ensures var b := ParseBatch(packed).value;
            asset == b.asset && amount == b.amount && !Stale(c, b.targetBlock, b.deadline)
    ensures sender == c.pool && initiator == c.self
  {
    hide TryCandidates, ParseBatch, BatchError, Settle;
  }
}
