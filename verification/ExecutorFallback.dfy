/** The fallback menu: which candidate is selected, and that the ones tried before it leave no trace. */
module ExecutorFallback {
  import opened PackedFormat
  import opened TokenLedger
  import opened Commitment
  import opened ExecutorModel
  import opened ExecutorSafety

  function Selected(w: World, candidate: Candidate, index: nat): World {
    w.(store := w.store.(activeSelectedCandidateId := candidate.candidateId, activeSelectedCandidateIndex := index,
                         activeSelectedMinProfit := candidate.minProfit))
  }

  /**
   The loop selects the least index whose attempt, made in the world before any attempt, succeeds;
   it fails exactly when every attempt does.
   */
  lemma {:induction false} SelectsFirstSuccess(
      c: Chain, market: Market, cs: seq<Candidate>, i: nat, asset: Address, amount: nat, premium: nat, w: World)
    ensures match TryCandidates(c, market, cs, i, asset, amount, premium, w)
            case Ok(w', k) =>
              && i <= k < |cs|
              && DoAttempt(c, c.self, cs[k], asset, amount, premium, market, w).Ok?
              && w' == Selected(DoAttempt(c, c.self, cs[k], asset, amount, premium, market, w).world, cs[k], k)
              && forall j :: i <= j < k ==> DoAttempt(c, c.self, cs[j], asset, amount, premium, market, w).Fail?
            case Fail(e) =>
              && e == NoCandidateSucceeded
              && forall j :: i <= j < |cs| ==> DoAttempt(c, c.self, cs[j], asset, amount, premium, market, w).Fail?
    decreases |cs| - i
  {
    hide DoAttempt;
    if i < |cs| {
      SelectsFirstSuccess(c, market, cs, i + 1, asset, amount, premium, w);
    }
  }

  /**
   From two worlds that differ in storage only, and answer the market's questions alike, the loop
   selects the same candidate with the same effect on the ledger.
   */
  lemma TryIgnoresStorage(
      c: Chain, market: Market, cs: seq<Candidate>, asset: Address, amount: nat, premium: nat, w: World, v: World)
    requires Locked(w.store) && Locked(v.store) && w.ledger == v.ledger
    requires w.store.activeBatchHash != ZeroHash && v.store.activeBatchHash != ZeroHash
    requires MarketLooksAlike(market, w.store, v.store)
    ensures var r, q := TryCandidates(c, market, cs, 0, asset, amount, premium, w),
            TryCandidates(c, market, cs, 0, asset, amount, premium, v);
            (r.Ok? <==> q.Ok?) && (r.Ok? ==> r.value == q.value && r.world.ledger == q.world.ledger)
  {
    hide DoAttempt, TryCandidates;
    SelectsFirstSuccess(c, market, cs, 0, asset, amount, premium, w);
    SelectsFirstSuccess(c, market, cs, 0, asset, amount, premium, v);
    forall k | 0 <= k < |cs|
      ensures SameRun(DoAttempt(c, c.self, cs[k], asset, amount, premium, market, w),
                      DoAttempt(c, c.self, cs[k], asset, amount, premium, market, v), w, v)
    {
      AttemptFreezesStorage(c, cs[k], asset, amount, premium, market, w, v);
    }
  }

  /** Alone in a menu, the selected candidate is selected and does to the ledger what it did in the full menu. */
  lemma AloneSelectsSame(
      c: Chain, market: Market, cs: seq<Candidate>, asset: Address, amount: nat, premium: nat, w: World, v: World)
    requires Locked(w.store) && Locked(v.store) && w.ledger == v.ledger
    requires w.store.activeBatchHash != ZeroHash && v.store.activeBatchHash != ZeroHash
    requires MarketLooksAlike(market, w.store, v.store)
    requires TryCandidates(c, market, cs, 0, asset, amount, premium, w).Ok?
    ensures var r := TryCandidates(c, market, cs, 0, asset, amount, premium, w);
            && r.value < |cs|
            && var q := TryCandidates(c, market, [cs[r.value]], 0, asset, amount, premium, v);
               && q.Ok? && q.value == 0 && q.world.ledger == r.world.ledger
               && q.world.store.activeSelectedCandidateId == r.world.store.activeSelectedCandidateId
               && q.world.store.activeSelectedMinProfit == r.world.store.activeSelectedMinProfit
  {
    hide DoAttempt, TryCandidates;
    SelectsFirstSuccess(c, market, cs, 0, asset, amount, premium, w);
    var k := TryCandidates(c, market, cs, 0, asset, amount, premium, w).value;
    SelectsFirstSuccess(c, market, [cs[k]], 0, asset, amount, premium, v);
    AttemptFreezesStorage(c, cs[k], asset, amount, premium, market, w, v);
    assert [cs[k]][0] == cs[k];
  }
}
