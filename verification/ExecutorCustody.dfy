/**
 Balances and allowances of the contract, with honest tokens and an honest pool but arbitrary adapters and callers.
 */
module ExecutorCustody {
  import opened PackedFormat
  import opened TokenLedger
  import opened ExecutorModel
  import opened ExecutorSafety
  import opened ExecutorValidation

  /** Nobody but the pool holds an allowance of the contract's t. */
  ghost predicate NoSpender(c: Chain, l: Ledger, t: Address) {
    forall s: Address :: s != c.pool ==> Allowed(l, t, c.self, s) == 0
  }

  ghost predicate Closed(c: Chain, l: Ledger) {
    forall t: Address :: NoSpender(c, l, t)
  }

  /**
   What outside code leaves of the contract's tokens: allowances only shrink, and a token nobody may spend is not
   spent.
   */
  ghost predicate Kept(c: Chain, l: Ledger, l': Ledger) {
    && (forall t: Address, s: Address :: Allowed(l', t, c.self, s) <= Allowed(l, t, c.self, s))
    && (forall t: Address :: Allowed(l', t, c.self, c.pool) == Allowed(l, t, c.self, c.pool))
    && (forall t: Address :: NoSpender(c, l, t) ==> Bal(l', t, c.self) >= Bal(l, t, c.self))
    && (Conserved(l) ==> Conserved(l'))
  }

  lemma KeptTwice(c: Chain, l: Ledger, l1: Ledger, l2: Ledger)
    requires Kept(c, l, l1) && Kept(c, l1, l2)
    ensures Kept(c, l, l2)
  {
    hide Allowed, Bal, Conserved;
    forall t: Address | NoSpender(c, l, t)
      ensures NoSpender(c, l1, t)
    {
    }
  }

  lemma TransferKept(c: Chain, l: Ledger, actor: Address, token: Address, to: Address, amount: nat)
    requires actor != c.self && Transfer(l, token, actor, to, amount).Some?
    ensures Kept(c, l, Transfer(l, token, actor, to, amount).value)
  {
    hide Allowed, Bal, Conserved, Transfer, Supply;
    TransferEffect(l, token, actor, to, amount);
    if Conserved(l) {
      TransferConserves(l, token, actor, to, amount);
    }
  }

  lemma PullKept(c: Chain, l: Ledger, actor: Address, token: Address, from: Address, to: Address, amount: nat)
    requires from == c.self ==> actor != c.pool
    requires TransferFrom(l, c.unlimited, token, actor, from, to, amount).Some?
    ensures Kept(c, l, TransferFrom(l, c.unlimited, token, actor, from, to, amount).value)
  {
    hide Allowed, Bal, Conserved, TransferFrom, Supply;
    TransferFromEffect(l, c.unlimited, token, actor, from, to, amount);
    if Conserved(l) {
      TransferFromConserves(l, c.unlimited, token, actor, from, to, amount);
    }
  }

  lemma ApproveKept(c: Chain, l: Ledger, actor: Address, token: Address, spender: Address, amount: nat)
    requires actor != c.self
    ensures Kept(c, l, Approve(l, token, actor, spender, amount))
  {
    hide Allowed, Bal, Conserved, Approve, Supply;
    ApproveEffect(l, token, actor, spender, amount);
    if Conserved(l) {
      ApproveConserves(l, token, actor, spender, amount);
    }
  }

  lemma MintKept(c: Chain, l: Ledger, token: Address, to: Address, amount: nat)
    requires Mint(l, token, to, amount).Some?
    ensures Kept(c, l, Mint(l, token, to, amount).value)
  {
    hide Allowed, Bal, Conserved, Mint, Supply;
    MintEffect(l, token, to, amount);
    if Conserved(l) {
      MintConserves(l, token, to, amount);
    }
  }

  lemma TouchKept(c: Chain, l: Ledger, key: int, data: int)
    ensures Kept(c, l, l.(dex := l.dex[key := data]))
  {
    hide Sum;
    var l' := l.(dex := l.dex[key := data]);
    assert forall t: Address :: Accounts(l', t) == Accounts(l, t) && Supply(l', t) == Supply(l, t);
  }

  /** An action on the ledger alone, by someone other than the contract. */
  lemma LedgerActKept(c: Chain, act: Act, w: World)
    requires c.honest && !act.Attempt? && !act.Enter?
    ensures var r := RunAct(c, act, w);
            r.Ok? ==> Kept(c, w.ledger, r.world.ledger) && r.world == w.(ledger := r.world.ledger)
  {
    hide Kept, Transfer, TransferFrom, Mint, Approve;
    if Possible(c, act) {
      match act {
        case TransferBy(actor, token, to, amount) =>
          if Transfer(w.ledger, token, actor, to, amount).Some? { TransferKept(c, w.ledger, actor, token, to, amount); }
        case PullBy(actor, token, from, to, amount) =>
          if TransferFrom(w.ledger, c.unlimited, token, actor, from, to, amount).Some? {
            PullKept(c, w.ledger, actor, token, from, to, amount);
          }
        case ApproveBy(actor, token, spender, amount) => ApproveKept(c, w.ledger, actor, token, spender, amount);
        case Issue(token, to, amount) =>
          if Mint(w.ledger, token, to, amount).Some? { MintKept(c, w.ledger, token, to, amount); }
        case Touch(key, data) => TouchKept(c, w.ledger, key, data);
        case Forge(_) =>
      }
    }
  }

  lemma KeptSame(c: Chain, l: Ledger)
    ensures Kept(c, l, l)
  {
  }

  /** While the locks hold, arbitrary adapter code spends no more than what it was allowed. */
  lemma {:induction false} LockedTreeKept(c: Chain, tree: Tree, w: World)
    requires c.honest && Locked(w.store)
    ensures RunTree(c, tree, w).Ok? ==> Kept(c, w.ledger, RunTree(c, tree, w).world.ledger)
    decreases tree
  {
    hide Kept;
    match tree {
      case Done(_) => KeptSame(c, w.ledger);
      case Revert =>
      case Then(act, rest) =>
        LockedActKept(c, act, w);
        LockedAct(c, act, w, w);
        var r := RunAct(c, act, w);
        if r.Ok? {
          LockedTreeKept(c, rest, r.world);
          if RunTree(c, rest, r.world).Ok? {
            KeptTwice(c, w.ledger, r.world.ledger, RunTree(c, rest, r.world).world.ledger);
          }
        }
      case Look(view, yes, no) => LockedTreeKept(c, if Answer(w.store, view) then yes else no, w);
    }
  }

  lemma {:induction false} LockedActKept(c: Chain, act: Act, w: World)
    requires c.honest && Locked(w.store)
    ensures RunAct(c, act, w).Ok? ==> Kept(c, w.ledger, RunAct(c, act, w).world.ledger)
    decreases act
  {
    hide Kept, Call, Transfer, TransferFrom, Mint, Approve;
    KeptSame(c, w.ledger);
    if act.Attempt? {
      LockedTreeKept(c, act.body, w);
    } else if act.Enter? {
      if act.sender != c.self {
        LockedCall(c, act.sender, act.entry, w);
      }
    } else {
      LedgerActKept(c, act, w);
    }
  }

  // ---- one leg ----

  lemma HonestApproveOnce(c: Chain, market: Market, token: Address, spender: Address, amount: nat, w: World)
    requires c.honest
    ensures ApproveOnce(c, market, token, spender, amount, w)
            == Ok(w.(ledger := Approve(w.ledger, token, c.self, spender, amount)), 1)
  {
  }

  /** With honest tokens an approval succeeds and sets exactly one allowance. */
  lemma HonestForceApprove(c: Chain, market: Market, token: Address, spender: Address, amount: nat, w: World)
    requires c.honest
    ensures var r := ForceApprove(c, market, token, spender, amount, w);
            && r.Ok? && r.value == 1 && r.world == w.(ledger := r.world.ledger)
            && (forall t: Address, a: Address :: Bal(r.world.ledger, t, a) == Bal(w.ledger, t, a))
            && (forall t: Address, h: Address, s: Address ::
                  Allowed(r.world.ledger, t, h, s)
                  == if t == token && h == c.self && s == spender then amount else Allowed(w.ledger, t, h, s))
            && (Conserved(w.ledger) ==> Conserved(r.world.ledger))
  {
    hide Bal, Allowed, Approve, Conserved, Supply;
    var l1 := Approve(w.ledger, token, c.self, spender, 0);
    HonestApproveOnce(c, market, token, spender, 0, w);
    HonestApproveOnce(c, market, token, spender, amount, w.(ledger := l1));
    ApproveEffect(w.ledger, token, c.self, spender, 0);
    ApproveEffect(l1, token, c.self, spender, amount);
    if Conserved(w.ledger) {
      ApproveConserves(w.ledger, token, c.self, spender, 0);
      ApproveConserves(l1, token, c.self, spender, amount);
    }
  }

  lemma SwapKept(c: Chain, market: Market, call: SwapCall, w: World)
    requires c.honest && Locked(w.store)
    ensures var r := RunSwap(c, market, call, w);
            r.Ok? ==> Kept(c, w.ledger, r.world.ledger) && r.world == w.(ledger := r.world.ledger)
  {
    hide Kept, RunTree;
    if (w.ledger, call) in market.swaps {
      LockedTreeKept(c, market.swaps[(w.ledger, call)], w);
      LockedTree(c, market.swaps[(w.ledger, call)], w, w);
    }
  }

  /**
   What one leg or several legs leave: no spender, no token spent outside `spent`, and the pool's allowances as they
   were or cleared.
   */
  ghost predicate LegsKept(c: Chain, spent: set<Address>, l: Ledger, l': Ledger) {
    && Closed(c, l')
    && (forall t: Address :: t !in spent ==> Bal(l', t, c.self) >= Bal(l, t, c.self))
    && (forall t: Address :: Allowed(l', t, c.self, c.pool) == Allowed(l, t, c.self, c.pool)
         || Allowed(l', t, c.self, c.pool) == 0)
    && (Conserved(l) ==> Conserved(l'))
  }

  lemma LegKeeps(c: Chain, market: Market, legs: seq<Leg>, i: nat, firstAmount: nat, w: World)
    requires c.honest && Locked(w.store) && i < |legs| && Closed(c, w.ledger)
    ensures var r := RunLeg(c, market, legs, i, firstAmount, w);
            r.Ok? ==> LegsKept(c, {legs[i].tokenIn}, w.ledger, r.world.ledger)
  {
    hide ForceApprove, RunSwap, Bal, Allowed, Conserved;
    var leg, amountIn := legs[i], LegInput(c, legs, i, firstAmount, w);
    var r := RunLeg(c, market, legs, i, firstAmount, w);
    if r.Ok? {
      HonestForceApprove(c, market, leg.tokenIn, leg.adapter, amountIn, w);
      var w1 := ForceApprove(c, market, leg.tokenIn, leg.adapter, amountIn, w).world;
      SwapKept(c, market, SwapOf(c, leg, amountIn), w1);
      var w2 := RunSwap(c, market, SwapOf(c, leg, amountIn), w1).world;
      HonestForceApprove(c, market, leg.tokenIn, leg.adapter, 0, w2);
      LegAllowances(c, leg.tokenIn, leg.adapter, amountIn, w.ledger, w1.ledger, w2.ledger, r.world.ledger);
    }
  }

  lemma LegAllowances(
      c: Chain, token: Address, adapter: Address, amountIn: nat, l: Ledger, l1: Ledger, l2: Ledger, l3: Ledger)
    requires Closed(c, l) && Kept(c, l1, l2)
    requires forall t: Address, a: Address :: Bal(l1, t, a) == Bal(l, t, a) && Bal(l3, t, a) == Bal(l2, t, a)
    requires forall t: Address, s: Address ::
               Allowed(l1, t, c.self, s) == if t == token && s == adapter then amountIn else Allowed(l, t, c.self, s)
    requires forall t: Address, s: Address ::
               Allowed(l3, t, c.self, s) == if t == token && s == adapter then 0 else Allowed(l2, t, c.self, s)
    requires (Conserved(l) ==> Conserved(l1)) && (Conserved(l2) ==> Conserved(l3))
    ensures LegsKept(c, {token}, l, l3)
  {
    hide Bal, Allowed, Conserved;
    forall t: Address | t != token
      ensures Bal(l3, t, c.self) >= Bal(l, t, c.self)
    {
      assert NoSpender(c, l, t);
      assert NoSpender(c, l1, t);
    }
    forall t: Address
      ensures NoSpender(c, l3, t)
    {
      assert NoSpender(c, l, t);
    }
  }

  function TokensIn(legs: seq<Leg>, i: nat): set<Address> {
    set k | i <= k < |legs| :: legs[k].tokenIn
  }

  lemma LegsKeptTwice(c: Chain, a: set<Address>, b: set<Address>, l: Ledger, l1: Ledger, l2: Ledger)
    requires LegsKept(c, a, l, l1) && LegsKept(c, b, l1, l2)
    ensures LegsKept(c, a + b, l, l2)
  {
    hide Bal, Allowed, Conserved, Closed;
  }

  /** Legs spend only the tokens they name as inputs, and leave no allowance behind. */
  lemma {:induction false} LegsKeep(c: Chain, market: Market, legs: seq<Leg>, i: nat, firstAmount: nat, w: World)
    requires c.honest && Locked(w.store) && Closed(c, w.ledger)
    ensures var r := ExecuteLegs(c, market, legs, i, firstAmount, w);
            r.Ok? ==> LegsKept(c, TokensIn(legs, i), w.ledger, r.world.ledger)
    decreases |legs| - i
  {
    hide RunLeg, Bal, Allowed, Conserved, Closed;
    if i < |legs| {
      LegKeeps(c, market, legs, i, firstAmount, w);
      LockedLeg(c, market, legs, i, firstAmount, w, w);
      var r := RunLeg(c, market, legs, i, firstAmount, w);
      if r.Ok? {
        assert Closed(c, r.world.ledger);
        LegsKeep(c, market, legs, i + 1, firstAmount, r.world);
        var q := ExecuteLegs(c, market, legs, i + 1, firstAmount, r.world);
        if q.Ok? {
          LegsKeptTwice(c, {legs[i].tokenIn}, TokensIn(legs, i + 1), w.ledger, r.world.ledger, q.world.ledger);
          assert TokensIn(legs, i) == {legs[i].tokenIn} + TokensIn(legs, i + 1);
        }
      }
    }
  }

  /** What accepted, clean legs leave: every token but the asset has at least the balance it had before. */
  lemma AcceptedLegsKeep(c: Chain, market: Market, asset: Address, legs: seq<Leg>, amount: nat, s: Store, w: World)
    requires c.honest && Locked(w.store) && Closed(c, w.ledger)
    requires LegsAccepted(s, asset, legs) && Clean(w.ledger, c.self, asset, legs)
    ensures var r := ExecuteLegs(c, market, legs, 0, amount, w);
            r.Ok? ==> LegsKept(c, {asset}, w.ledger, r.world.ledger)
  {
    hide ExecuteLegs, Bal, Allowed, Conserved, Closed, LegAccepted;
    LegsKeep(c, market, legs, 0, amount, w);
    var r := ExecuteLegs(c, market, legs, 0, amount, w);
    if r.Ok? {
      forall t: Address | t != asset
        ensures Bal(r.world.ledger, t, c.self) >= Bal(w.ledger, t, c.self)
      {
        if t in TokensIn(legs, 0) {
          var k :| 0 <= k < |legs| && legs[k].tokenIn == t;
          assert k > 0 && legs[k - 1].tokenOut == t;
        }
      }
    }
  }
}
