/** A fallback menu does to the ledger exactly what the selected candidate does alone. */
module ExecutorMenu {
  import opened Bytes
  import opened PackedFormat
  import opened TokenLedger
  import opened Commitment
  import opened ExecutorModel
  import opened ExecutorSafety
  import opened ExecutorValidation
  import opened ExecutorRuns
  import opened ExecutorLiveness

  function Only(b: Batch, k: nat): Batch
    requires k < |b.candidates|
  {
    b.(candidates := [b.candidates[k]])
  }

  lemma OnlyParses(packed: seq<Byte>, k: nat)
    requires ParseBatch(packed).Success? && k < |ParseBatch(packed).value.candidates|
    ensures ParseBatch(Encode(Only(ParseBatch(packed).value, k))) == Success(Only(ParseBatch(packed).value, k))
  {
    hide ParseBatch, Encode, Fits, WellFormedCandidate;
    EncodeParse(packed);
    ParseEncode(Only(ParseBatch(packed).value, k));
  }

  /** If the menu passes validation so does the single candidate, unless that very batch was committed before. */
  lemma OnlyIsValid(c: Chain, sender: Address, packed: seq<Byte>, k: nat, w: World)
    requires StartPackedError(c, sender, packed, w).None?
    requires ParseBatch(packed).Success? && k < |ParseBatch(packed).value.candidates|
    requires ParamsHash(RawParams(Encode(Only(ParseBatch(packed).value, k)))) !in w.store.commitmentUsed
    ensures StartPackedError(c, sender, Encode(Only(ParseBatch(packed).value, k)), w).None?
  {
    hide ParseBatch, Encode, Clean, CandidateAccepted, BatchError, FirstDirtyCandidate, Bal;
    var b := ParseBatch(packed).value;
    var one := Only(b, k);
    OnlyParses(packed, k);
    StartPackedIsClean(c, sender, packed, w);
    BatchErrorExact(w.store, one);
    FirstDirtyCandidateExact(w.ledger, c.self, one.asset, one.candidates, 0);
  }

  lemma {:induction false} AsksFewer(tree: Tree, many: set<Hash>, few: set<Hash>)
    requires NeverAsks(tree, many) && few <= many
    ensures NeverAsks(tree, few)
    decreases tree
  {
    match tree {
      case Done(_) =>
      case Revert =>
      case Then(act, rest) =>
        AsksFewer(rest, many, few);
        if act.Attempt? {
          AsksFewer(act.body, many, few);
        }
      case Look(_, yes, no) =>
        AsksFewer(yes, many, few);
        AsksFewer(no, many, few);
    }
  }

  lemma MarketAsksFewer(market: Market, many: set<Hash>, few: set<Hash>)
    requires MarketNeverAsks(market, many) && few <= many
    ensures MarketNeverAsks(market, few)
  {
    hide NeverAsks;
    forall k | k in market.swaps
      ensures NeverAsks(market.swaps[k], few)
    {
      AsksFewer(market.swaps[k], many, few);
    }
    forall k | k in market.hooks
      ensures NeverAsks(market.hooks[k], few)
    {
      AsksFewer(market.hooks[k], many, few);
    }
  }

  lemma SameAttempt(
      c: Chain, candidate: Candidate, asset: Address, amount: nat, premium: nat, market: Market, packed: seq<Byte>,
      packed': seq<Byte>, w: World)
    requires Transfer(w.ledger, asset, c.pool, c.self, amount).Some?
    requires MarketNeverAsks(market, {ParamsHash(RawParams(packed)), ParamsHash(RawParams(packed'))})
    ensures SameRun(DoAttempt(c, c.self, candidate, asset, amount, premium, market,
            Attempting(c, packed, asset, amount, w)),
                    DoAttempt(c, c.self, candidate, asset, amount, premium, market,
                        Attempting(c, packed', asset, amount, w)),
                    Attempting(c, packed, asset, amount, w), Attempting(c, packed', asset, amount, w))
  {
    hide DoAttempt, Transfer, Bal, NeverAsks;
    var v, v' := Attempting(c, packed, asset, amount, w), Attempting(c, packed', asset, amount, w);
    MarketAsksFewer(market, {ParamsHash(RawParams(packed)), ParamsHash(RawParams(packed'))}, Differ(v.store, v'.store));
    AttemptFreezesStorage(c, candidate, asset, amount, premium, market,
                          Attempting(c, packed, asset, amount, w), Attempting(c, packed', asset, amount, w));
  }

  /** The second batch was never committed, and the market never asks which of the two is being executed. */
  ghost predicate Unseen(market: Market, packed: seq<Byte>, packed': seq<Byte>, w: World) {
    && ParamsHash(RawParams(packed')) !in w.store.commitmentUsed
    && MarketNeverAsks(market, {ParamsHash(RawParams(packed)), ParamsHash(RawParams(packed'))})
  }

  /**
   Packed fallback. The committed index is the least whose attempt succeeds, and the final
   balances and allowances are those of the menu holding that candidate only.
   */
  lemma MenuEqualsAlone(c: Chain, sender: Address, packed: seq<Byte>, premiumBps: nat, market: Market, w: World)
    requires c.honest && c.self != c.pool && Invariant(c, w)
    requires DoStartPacked(c, sender, packed, HonestPool(premiumBps, market), w).Ok?
    ensures ParseBatch(packed).Success?
    ensures var b := ParseBatch(packed).value;
            exists k: nat ::
              && k < |b.candidates|
              && Transfer(w.ledger, b.asset, c.pool, c.self, b.amount).Some?
              && PackedChoice(c, b, Premium(b.amount, premiumBps), market,
                   Attempting(c, packed, b.asset, b.amount, w), k)
              && (Unseen(market, packed, Encode(Only(b, k)), w) ==>
                    var alone := DoStartPacked(c, sender, Encode(Only(b, k)), HonestPool(premiumBps, market), w);
                    alone.Ok? && alone.world.ledger
                        == DoStartPacked(c, sender, packed, HonestPool(premiumBps, market), w).world.ledger)
  {
    hide ParseBatch, Encode, DoStartPacked, Invariant, DoAttempt, PaidBack, Bal, Transfer, Premium, StartPackedError;
    var r := DoStartPacked(c, sender, packed, HonestPool(premiumBps, market), w);
    CommittedPassed(c, sender, packed, HonestPool(premiumBps, market), w);
    PackedCommitsIffAttempt(c, sender, packed, premiumBps, market, w);
    var b := ParseBatch(packed).value;
    var premium := Premium(b.amount, premiumBps);
    var v := Attempting(c, packed, b.asset, b.amount, w);
    var k: nat :| PackedChoice(c, b, premium, market, v, k) && PackedChange(c, b, premium, market, v, k, w, r.world);
    var one := Only(b, k);
    var packed' := Encode(one);
    if Unseen(market, packed, packed', w) {
      OnlyParses(packed, k);
      OnlyIsValid(c, sender, packed, k, w);
      PackedCommitsIffAttempt(c, sender, packed', premiumBps, market, w);
      SameAttempt(c, b.candidates[k], b.asset, b.amount, premium, market, packed, packed', w);
      var v' := Attempting(c, packed', b.asset, b.amount, w);
      assert one.candidates[0] == b.candidates[k];
      var alone := DoStartPacked(c, sender, packed', HonestPool(premiumBps, market), w);
      assert alone.Ok?;
      var k': nat :| PackedChoice(c, one, premium, market, v', k')
          && PackedChange(c, one, premium, market, v', k', w, alone.world);
      assert k' == 0;
    }
  }
}
