/**
 With any pool, a packed operation commits only after a callback has selected a candidate of the very batch
 that was started, and only with that candidate's profit.
 */
module ExecutorSelection {
  import opened Bytes
  import opened PackedFormat
  import opened TokenLedger
  import opened ExecutorModel
  import opened ExecutorSafety
  import opened ExecutorFallback

  /** The reported selection is a candidate of the menu: its id, its place and its minimum profit. */
  predicate FromMenu(s: Store, cs: seq<Candidate>) {
    var i := s.activeSelectedCandidateIndex;
    i < |cs| && s.activeSelectedCandidateId == cs[i].candidateId && s.activeSelectedMinProfit == cs[i].minProfit
  }

  /** The operation of this batch is under way, and nothing or a candidate of its menu is selected. */
  predicate UnderWay(s: Store, packed: seq<Byte>, b: Batch) {
    && s.operationEntered && s.activeBatchHash == ParamsHash(RawParams(packed))
    && (s.activeSelectedCandidateId == 0 || FromMenu(s, b.candidates))
  }

  lemma CallbackSelects(
      c: Chain, packed: seq<Byte>, b: Batch, sender: Address, asset: Address, amount: nat, premium: nat,
      initiator: Address, params: Params, market: Market, w: World)
    requires ParseBatch(packed) == Success(b) && w.store.operationEntered
    requires w.store.activeBatchHash == ParamsHash(RawParams(packed))
    ensures var r := DoExecuteOperation(c, sender, asset, amount, premium, initiator, params, market, w);
            r.Ok? ==> FromMenu(r.world.store, b.candidates)
  {
    hide TryCandidates, Settle, ParseBatch, BatchError, FromMenu, RouteCallback, DoAttempt;
    if DoExecuteOperation(c, sender, asset, amount, premium, initiator, params, market, w).Ok? {
      CallbackRunsStartedBatch(c, packed, sender, asset, amount, premium, initiator, params, market, w);
      var w1 := w.(store := w.store.(callbackEntered := true));
      var tried := TryCandidates(c, market, b.candidates, 0, asset, amount, premium, w1);
      SelectsFirstSuccess(c, market, b.candidates, 0, asset, amount, premium, w1);
      TryKeepsOperation(c, market, b.candidates, 0, asset, amount, premium, w1);
      SelectedIsFromMenu(tried.world, b.candidates);
      SettleKeepsOperation(c, market, asset, amount + premium, tried.world.store.activeSelectedMinProfit,
          tried.world.(store := tried.world.store.(activePremium := premium)));
      var r := DoExecuteOperation(c, sender, asset, amount, premium, initiator, params, market, w);
      SameSelection(tried.world.store, r.world.store, b.candidates);
    }
  }

  lemma SelectedIsFromMenu(w: World, cs: seq<Candidate>)
    ensures (exists k, v :: 0 <= k < |cs| && w == Selected(v, cs[k], k)) ==> FromMenu(w.store, cs)
  {
  }

  lemma SameSelection(s: Store, s': Store, cs: seq<Candidate>)
    requires s.activeSelectedCandidateId == s'.activeSelectedCandidateId
    requires s.activeSelectedCandidateIndex == s'.activeSelectedCandidateIndex
    requires s.activeSelectedMinProfit == s'.activeSelectedMinProfit
    ensures FromMenu(s, cs) <==> FromMenu(s', cs)
  {
  }

  lemma CallSelects(c: Chain, packed: seq<Byte>, b: Batch, sender: Address, entry: Entry, w: World)
    requires ParseBatch(packed) == Success(b) && UnderWay(w.store, packed, b) && sender != c.self
    ensures Call(c, sender, entry, w).Ok? ==> UnderWay(Call(c, sender, entry, w).world.store, packed, b)
  {
    hide DoExecuteOperation, ParseBatch, FromMenu;
    OperationCall(c, sender, entry, w);
    match entry {
      case ExecuteOperation(asset, amount, premium, initiator, params, market) =>
        CallbackSelects(c, packed, b, sender, asset, amount, premium, initiator, params, market, w);
      case Start(route, pool) => assert StartError(c, sender, route, w).Some?;
      case StartPacked(other, pool) => assert StartPackedError(c, sender, other, w).Some?;
      case _ =>
    }
  }

  /** Whatever the pool does, however it re-enters and whichever callbacks it makes or catches. */
  lemma {:induction false} TreeSelects(c: Chain, packed: seq<Byte>, b: Batch, tree: Tree, w: World)
    requires ParseBatch(packed) == Success(b) && UnderWay(w.store, packed, b)
    ensures RunTree(c, tree, w).Ok? ==> UnderWay(RunTree(c, tree, w).world.store, packed, b)
    decreases tree
  {
    hide ParseBatch, UnderWay;
    match tree {
      case Done(_) =>
      case Revert =>
      case Then(act, rest) =>
        ActSelects(c, packed, b, act, w);
        if RunAct(c, act, w).Ok? {
          TreeSelects(c, packed, b, rest, RunAct(c, act, w).world);
        }
      case Look(view, yes, no) => TreeSelects(c, packed, b, if Answer(w.store, view) then yes else no, w);
    }
  }

  lemma {:induction false} ActSelects(c: Chain, packed: seq<Byte>, b: Batch, act: Act, w: World)
    requires ParseBatch(packed) == Success(b) && UnderWay(w.store, packed, b)
    ensures RunAct(c, act, w).Ok? ==> UnderWay(RunAct(c, act, w).world.store, packed, b)
    decreases act
  {
    hide Transfer, TransferFrom, Mint, Approve, Call, ParseBatch, UnderWay;
    match act {
      case Attempt(body) => TreeSelects(c, packed, b, body, w);
      case Enter(sender, entry) =>
        if sender != c.self {
          CallSelects(c, packed, b, sender, entry, w);
        }
      case _ =>
    }
  }

  lemma PoolSelects(c: Chain, packed: seq<Byte>, b: Batch, pool: PoolCode, w: World)
    requires ParseBatch(packed) == Success(b) && UnderWay(w.store, packed, b)
    ensures var r := RunPool(c, pool, b.asset, b.amount, RawParams(packed), w);
            r.Ok? ==> UnderWay(r.world.store, packed, b)
  {
    hide DoExecuteOperation, RunTree, Transfer, TransferFrom, ParseBatch, FromMenu;
    match pool {
      case HonestPool(premiumBps, market) =>
        var lent := Transfer(w.ledger, b.asset, c.pool, c.self, b.amount);
        if lent.Some? {
          var w1, premium := w.(ledger := lent.value), Premium(b.amount, premiumBps);
          CallbackKeepsOperation(c, c.pool, b.asset, b.amount, premium, c.self, RawParams(packed), market, w1);
          CallbackSelects(c, packed, b, c.pool, b.asset, b.amount, premium, c.self, RawParams(packed), market, w1);
        }
      case AnyPool(body) => TreeSelects(c, packed, b, body, w);
    }
  }

  /**
   With any pool, a committed startPacked logs a candidate of its own batch, by place and id, and the asset's
   balance has grown by at least that candidate's minimum profit. Without a successful callback nothing commits.
   */
  lemma CommitsFromMenu(c: Chain, sender: Address, packed: seq<Byte>, pool: PoolCode, w: World)
    ensures var r := DoStartPacked(c, sender, packed, pool, w);
            r.Ok? ==>
              && ParseBatch(packed).Success? && |r.world.events| == |w.events| + 1
              && var b, e := ParseBatch(packed).value, r.world.events[|w.events|];
                 && e.PackedRouteExecuted? && e.candidateIndex < |b.candidates|
                 && e.candidateId == b.candidates[e.candidateIndex].candidateId && e.candidateId != 0
                 && e.netProfit >= b.candidates[e.candidateIndex].minProfit
                 && Bal(r.world.ledger, b.asset, c.self) == Bal(w.ledger, b.asset, c.self) + e.netProfit
  {
    hide Bal, RunPool, ParseBatch, BatchError, FirstDirtyCandidate;
    if DoStartPacked(c, sender, packed, pool, w).Ok? {
      var b := ParseBatch(packed).value;
      var started := PackedOpened(c, packed, b.asset, w);
      PoolSelects(c, packed, b, pool, started);
      PoolKeepsOperation(c, pool, b.asset, b.amount, RawParams(packed), started);
    }
  }
}
