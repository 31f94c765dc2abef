/** How much a leg can cost: an adapter may take any part of its allowance, and no more. */
module ExecutorSpending {
  import opened PackedFormat
  import opened TokenLedger
  import opened ExecutorModel
  import opened ExecutorSafety
  import opened ExecutorCustody

  /** Besides the pool only s may spend the contract's t, and what s may spend is used up as it is spent. */
  ghost predicate Budget(c: Chain, l: Ledger, t: Address, s: Address) {
    && s != c.pool
    && (forall x: Address :: x != c.pool && x != s ==> Allowed(l, t, c.self, x) == 0)
    && (c.unlimited ==> Allowed(l, t, c.self, s) < MAX_UINT)
  }

  /** What was lost of t is covered by what was used up of the budget. */
  ghost predicate Within(c: Chain, t: Address, s: Address, l: Ledger, l': Ledger) {
    Budget(c, l, t, s) ==>
      && Budget(c, l', t, s)
      && Bal(l', t, c.self) + Allowed(l, t, c.self, s) >= Bal(l, t, c.self) + Allowed(l', t, c.self, s)
  }

  lemma WithinTwice(c: Chain, t: Address, s: Address, l: Ledger, l1: Ledger, l2: Ledger)
    requires Within(c, t, s, l, l1) && Within(c, t, s, l1, l2)
    ensures Within(c, t, s, l, l2)
  {
    hide Bal, Allowed, Budget;
  }

  lemma WithinSame(c: Chain, t: Address, s: Address, l: Ledger)
    ensures Within(c, t, s, l, l)
  {
  }

  lemma PullWithin(
      c: Chain, t: Address, s: Address, l: Ledger, actor: Address, token: Address, from: Address, to: Address,
      amount: nat)
    requires from == c.self ==> actor != c.pool
    requires TransferFrom(l, c.unlimited, token, actor, from, to, amount).Some?
    ensures Within(c, t, s, l, TransferFrom(l, c.unlimited, token, actor, from, to, amount).value)
  {
    hide Allowed, Bal, TransferFrom;
    TransferFromEffect(l, c.unlimited, token, actor, from, to, amount);
  }

  lemma ActWithin(c: Chain, t: Address, s: Address, act: Act, w: World)
    requires c.honest && !act.Attempt? && !act.Enter?
    ensures var r := RunAct(c, act, w);
            r.Ok? ==> Within(c, t, s, w.ledger, r.world.ledger)
  {
    hide Bal, Allowed, Transfer, TransferFrom, Mint, Approve, Within;
    if RunAct(c, act, w).Ok? {
      match act {
        case TransferBy(actor, token, to, amount) => TransferWithin(c, t, s, w.ledger, actor, token, to, amount);
        case PullBy(actor, token, from, to, amount) => PullWithin(c, t, s, w.ledger, actor, token, from, to, amount);
        case ApproveBy(actor, token, spender, amount) =>
          ApproveWithin(c, t, s, w.ledger, actor, token, spender, amount);
        case Issue(token, to, amount) => MintWithin(c, t, s, w.ledger, token, to, amount);
        case Touch(key, data) => TouchWithin(c, t, s, w.ledger, key, data);
      }
    }
  }

  lemma TransferWithin(
      c: Chain, t: Address, s: Address, l: Ledger, actor: Address, token: Address, to: Address, amount: nat)
    requires actor != c.self && Transfer(l, token, actor, to, amount).Some?
    ensures Within(c, t, s, l, Transfer(l, token, actor, to, amount).value)
  {
    hide Allowed, Bal, Transfer;
    TransferEffect(l, token, actor, to, amount);
  }

  lemma ApproveWithin(
      c: Chain, t: Address, s: Address, l: Ledger, actor: Address, token: Address, spender: Address, amount: nat)
    requires actor != c.self
    ensures Within(c, t, s, l, Approve(l, token, actor, spender, amount))
  {
    hide Allowed, Bal, Approve;
    ApproveEffect(l, token, actor, spender, amount);
  }

  lemma MintWithin(c: Chain, t: Address, s: Address, l: Ledger, token: Address, to: Address, amount: nat)
    requires Mint(l, token, to, amount).Some?
    ensures Within(c, t, s, l, Mint(l, token, to, amount).value)
  {
    hide Allowed, Bal, Mint;
    MintEffect(l, token, to, amount);
  }

  lemma TouchWithin(c: Chain, t: Address, s: Address, l: Ledger, key: int, data: int)
    ensures Within(c, t, s, l, l.(dex := l.dex[key := data]))
  {
    var l' := l.(dex := l.dex[key := data]);
    assert forall x: Address :: Allowed(l', t, c.self, x) == Allowed(l, t, c.self, x);
    assert Bal(l', t, c.self) == Bal(l, t, c.self);
  }

  /** Any finite tree of calls stays within the budget, whoever acts in it. */
  lemma {:induction false} TreeWithin(c: Chain, t: Address, s: Address, tree: Tree, w: World)
    requires c.honest && Locked(w.store)
    ensures RunTree(c, tree, w).Ok? ==> Within(c, t, s, w.ledger, RunTree(c, tree, w).world.ledger)
    decreases tree
  {
    hide Within;
    match tree {
      case Done(_) => WithinSame(c, t, s, w.ledger);
      case Revert =>
      case Then(act, rest) =>
        LockedActWithin(c, t, s, act, w);
        LockedAct(c, act, w, w);
        var r := RunAct(c, act, w);
        if r.Ok? {
          TreeWithin(c, t, s, rest, r.world);
          if RunTree(c, rest, r.world).Ok? {
            WithinTwice(c, t, s, w.ledger, r.world.ledger, RunTree(c, rest, r.world).world.ledger);
          }
        }
      case Look(view, yes, no) => TreeWithin(c, t, s, if Answer(w.store, view) then yes else no, w);
    }
  }

  lemma {:induction false} LockedActWithin(c: Chain, t: Address, s: Address, act: Act, w: World)
    requires c.honest && Locked(w.store)
    ensures RunAct(c, act, w).Ok? ==> Within(c, t, s, w.ledger, RunAct(c, act, w).world.ledger)
    decreases act
  {
    hide Within, Call, Transfer, TransferFrom, Mint, Approve;
    WithinSame(c, t, s, w.ledger);
    if act.Attempt? {
      TreeWithin(c, t, s, act.body, w);
    } else if act.Enter? {
      if act.sender != c.self {
        LockedCall(c, act.sender, act.entry, w);
      }
    } else {
      ActWithin(c, t, s, act, w);
    }
  }

  /**
   One leg with any adapter, the pool included: it costs at most its input of tokenIn, brings at least
   minOut of tokenOut and exactly what the adapter reported, and the adapter is left without an allowance.
   */
  lemma LegCostsAtMostInput(c: Chain, market: Market, legs: seq<Leg>, i: nat, firstAmount: nat, w: World)
    requires c.honest && Locked(w.store) && i < |legs| && Closed(c, w.ledger)
    requires Bal(w.ledger, legs[i].tokenIn, c.self) <= MAX_UINT
    ensures var r := RunLeg(c, market, legs, i, firstAmount, w);
            var leg, amountIn := legs[i], LegInput(c, legs, i, firstAmount, w);
            r.Ok? ==>
              && ForceApprove(c, market, leg.tokenIn, leg.adapter, amountIn, w).Ok?
              && RunSwap(c, market, SwapOf(c, leg, amountIn),
                   ForceApprove(c, market, leg.tokenIn, leg.adapter, amountIn, w).world).Ok?
              && Bal(r.world.ledger, leg.tokenIn, c.self) + amountIn >= Bal(w.ledger, leg.tokenIn, c.self)
              && Bal(r.world.ledger, leg.tokenOut, c.self) >= Bal(w.ledger, leg.tokenOut, c.self) + leg.minOut
              && RunSwap(c, market, SwapOf(c, leg, amountIn),
                   ForceApprove(c, market, leg.tokenIn, leg.adapter, amountIn, w).world).value
                 == Bal(r.world.ledger, leg.tokenOut, c.self) - Bal(w.ledger, leg.tokenOut, c.self)
              && Allowed(r.world.ledger, leg.tokenIn, c.self, leg.adapter) == 0
  {
    hide ForceApprove, RunSwap, Bal, Allowed, Conserved;
    var leg, amountIn := legs[i], LegInput(c, legs, i, firstAmount, w);
    var r := RunLeg(c, market, legs, i, firstAmount, w);
    if r.Ok? {
      HonestForceApprove(c, market, leg.tokenIn, leg.adapter, amountIn, w);
      var w1 := ForceApprove(c, market, leg.tokenIn, leg.adapter, amountIn, w).world;
      var call := SwapOf(c, leg, amountIn);
      SwapCosts(c, market, call, amountIn, w.ledger, w1);
      HonestForceApprove(c, market, leg.tokenIn, leg.adapter, 0, RunSwap(c, market, call, w1).world);
    }
  }

  /**
   A swap by an adapter that was approved for amountIn costs at most that: the pool cannot pull at all, and no balance
   exceeds a word.
   */
  lemma SwapCosts(c: Chain, market: Market, call: SwapCall, amountIn: nat, l: Ledger, w1: World)
    requires c.honest && Locked(w1.store) && Closed(c, l) && Bal(l, call.tokenIn, c.self) <= MAX_UINT
    requires Bal(w1.ledger, call.tokenIn, c.self) == Bal(l, call.tokenIn, c.self)
    requires forall t: Address, s: Address ::
               Allowed(w1.ledger, t, c.self, s) == if t == call.tokenIn && s == call.adapter then amountIn
                   else Allowed(l, t, c.self, s)
    ensures var r := RunSwap(c, market, call, w1);
            r.Ok? ==> Bal(r.world.ledger, call.tokenIn, c.self) + amountIn >= Bal(l, call.tokenIn, c.self)
  {
    hide RunTree, Bal, Allowed, Conserved, Within;
    assert NoSpender(c, l, call.tokenIn);
    var r := RunSwap(c, market, call, w1);
    if r.Ok? {
      if call.adapter == c.pool {
        assert NoSpender(c, w1.ledger, call.tokenIn);
        SwapKept(c, market, call, w1);
      } else if amountIn < MAX_UINT {
        TreeWithin(c, call.tokenIn, call.adapter, market.swaps[(w1.ledger, call)], w1);
        WithinMeans(c, call.tokenIn, call.adapter, w1.ledger, r.world.ledger);
      }
    }
  }

  lemma WithinMeans(c: Chain, t: Address, s: Address, l: Ledger, l': Ledger)
    requires Within(c, t, s, l, l') && Budget(c, l, t, s)
    ensures Bal(l', t, c.self) + Allowed(l, t, c.self, s) >= Bal(l, t, c.self)
  {
    hide Bal, Allowed;
  }
}
