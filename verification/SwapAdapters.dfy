/**
 The repository's two adapters. Each pulls exactly its input, approves a router, calls it, and
 answers what the recipient's balance gained. The router is arbitrary code; the call it gets
 depends on the adapter.
 */
module SwapAdapters {
  import opened Bytes
  import opened TokenLedger
  import opened ExecutorModel
  import opened ExecutorSafety
  import opened ExecutorCustody
  import opened PackedFormat
  import opened PlanExecution

  datatype Adapter =
    | Aerodrome(executor: Address, router: Address, factory: Address)
    | UniswapV3(executor: Address, router: Address, router02: bool)

  /** The three router interfaces, with the arguments the adapters fill in. */
  datatype RouterCall =
    | SwapExactTokens(amountIn: nat, amountOutMin: nat, from: Address, to: Address, stable: bool, factory: Address,
        recipient: Address, deadline: nat)
    | ExactInputLegacy(tokenIn: Address, tokenOut: Address, fee: nat, recipient: Address, deadline: nat, amountIn: nat,
                       amountOutMinimum: nat, sqrtPriceLimit: nat)
    | ExactInput02(tokenIn: Address, tokenOut: Address, fee: nat, recipient: Address, amountIn: nat,
        amountOutMinimum: nat,
                   sqrtPriceLimit: nat)

  type Routers = map<(Ledger, RouterCall), Tree>

  /** The calldata an adapter hands to its router, or none where the leg data does not decode. */
  function RouterCallOf(c: Chain, a: Adapter, call: SwapCall): Option<RouterCall> {
    match a
    case Aerodrome(_, _, factory) =>
      if |call.data| < 32 || FromBE(call.data[..32]) > 1 then None
      else
        Some(SwapExactTokens(call.amountIn, call.minOut, call.tokenIn, call.tokenOut, FromBE(call.data[..32]) == 1,
            factory,
                             call.recipient, c.timestamp))
    case UniswapV3(_, _, router02) =>
      if |call.data| < 64 || !Fits(FromBE(call.data[..32]), 3) || !Fits(FromBE(call.data[32..64]), 20) then None
      else
        var fee, limit := FromBE(call.data[..32]), FromBE(call.data[32..64]);
        if router02 then Some(ExactInput02(call.tokenIn, call.tokenOut, fee, call.recipient, call.amountIn,
            call.minOut, limit))
        else Some(ExactInputLegacy(call.tokenIn, call.tokenOut, fee, call.recipient, c.timestamp, call.amountIn,
            call.minOut, limit))
  }

  function ApproveRouter(l: Ledger, token: Address, adapter: Address, router: Address, amount: nat): Ledger {
    var cleared := Approve(l, token, adapter, router, 0);
    if amount != 0 then Approve(cleared, token, adapter, router, amount) else cleared
  }

  /** swap, called by `sender`: the answer is the recipient's gain across the router call. */
  function AdapterSwap(c: Chain, a: Adapter, routers: Routers, sender: Address, call: SwapCall, w: World): Outcome {
    if sender != a.executor then Fail(Unauthorized)
    else if RouterCallOf(c, a, call).None? then Fail(Undecodable)
    else
      match TransferFrom(w.ledger, c.unlimited, call.tokenIn, call.adapter, sender, call.adapter, call.amountIn)
      case None => Fail(OutsideRevert)
      case Some(pulled) =>
        var w1 := w.(ledger := ApproveRouter(pulled, call.tokenIn, call.adapter, a.router, call.amountIn));
        var routed := (w1.ledger, RouterCallOf(c, a, call).value);
        if routed !in routers then Fail(OutsideRevert)
        else
          match RunTree(c, routers[routed], w1)
          case Fail(e) => Fail(e)
          case Ok(w2, _) =>
            var before, after := Bal(w1.ledger, call.tokenOut, call.recipient),
                Bal(w2.ledger, call.tokenOut, call.recipient);
            if after < before then Fail(ArithmeticPanic)
            else if after - before < call.minOut then Fail(OutsideRevert)
            else Ok(w2.(ledger := Approve(w2.ledger, call.tokenIn, call.adapter, a.router, 0)), after - before)
  }

  lemma ApproveRouterEffect(l: Ledger, token: Address, adapter: Address, router: Address, amount: nat)
    ensures var l' := ApproveRouter(l, token, adapter, router, amount);
            && (forall t: Address, a: Address :: Bal(l', t, a) == Bal(l, t, a))
            && (forall t: Address, h: Address, s: Address ::
                  Allowed(l', t, h, s) == if t == token && h == adapter && s == router then amount
                      else Allowed(l, t, h, s))
            && (Conserved(l) ==> Conserved(l'))
  {
    hide Bal, Allowed, Approve, Conserved, Supply;
    ApproveEffect(l, token, adapter, router, 0);
    ApproveEffect(Approve(l, token, adapter, router, 0), token, adapter, router, amount);
    if Conserved(l) {
      ApproveConserves(l, token, adapter, router, 0);
      ApproveConserves(Approve(l, token, adapter, router, 0), token, adapter, router, amount);
    }
  }

  /**
   Whatever the router does: the adapter answers exactly the recipient's gain, at least the minimum,
   spends no more of the contract's input token than its amount, and leaves no router approval.
   */
  lemma AdapterKeepsItsWord(c: Chain, a: Adapter, routers: Routers, call: SwapCall, w: World)
    requires c.honest && Locked(w.store) && call.adapter != c.self && call.adapter != c.pool && call.recipient == c.self
    requires call.tokenIn != call.tokenOut && NoSpender(c, w.ledger, call.tokenOut)
    requires forall s: Address :: s != c.pool && s != call.adapter ==> Allowed(w.ledger, call.tokenIn, c.self, s) == 0
    requires Allowed(w.ledger, call.tokenIn, c.self, call.adapter) == call.amountIn
             && !(c.unlimited && call.amountIn == MAX_UINT)
    ensures var r := AdapterSwap(c, a, routers, c.self, call, w);
            r.Ok? ==>
              && r.value == Bal(r.world.ledger, call.tokenOut, c.self) - Bal(w.ledger, call.tokenOut, c.self)
              && r.value >= call.minOut
              && Bal(r.world.ledger, call.tokenIn, c.self) >= Bal(w.ledger, call.tokenIn, c.self) - call.amountIn
              && Allowed(r.world.ledger, call.tokenIn, call.adapter, a.router) == 0
              && Allowed(r.world.ledger, call.tokenIn, c.self, call.adapter) == 0
              && r.world.store == w.store
  {
    hide Bal, Allowed, Approve, Conserved, TransferFrom, RouterCallOf, RunTree, ApproveRouter, Supply;
    var r := AdapterSwap(c, a, routers, c.self, call, w);
    if r.Ok? {
      var pulled := TransferFrom(w.ledger, c.unlimited, call.tokenIn, call.adapter, c.self, call.adapter,
          call.amountIn).value;
      TransferFromEffect(w.ledger, c.unlimited, call.tokenIn, call.adapter, c.self, call.adapter, call.amountIn);
      ApproveRouterEffect(pulled, call.tokenIn, call.adapter, a.router, call.amountIn);
      var w1 := w.(ledger := ApproveRouter(pulled, call.tokenIn, call.adapter, a.router, call.amountIn));
      var tree := routers[(w1.ledger, RouterCallOf(c, a, call).value)];
      LockedTree(c, tree, w1, w1);
      LockedTreeKept(c, tree, w1);
      var w2 := RunTree(c, tree, w1).world;
      assert NoSpender(c, w1.ledger, call.tokenIn);
      ApproveEffect(w2.ledger, call.tokenIn, call.adapter, a.router, 0);
    }
  }

  // ---- adapters as outside code ----

  function Append(t: Tree, rest: Tree): Tree {
    match t
    case Done(_) => rest
    case Revert => Revert
    case Then(act, more) => Then(act, Append(more, rest))
    case Look(view, yes, no) => Look(view, Append(yes, rest), Append(no, rest))
  }

  lemma {:induction false} RunAppend(c: Chain, t: Tree, rest: Tree, w: World)
    ensures RunTree(c, Append(t, rest), w)
         == match RunTree(c, t, w) case Ok(w', _) => RunTree(c, rest, w') case Fail(e) => Fail(e)
    decreases t
  {
    hide RunAct;
    match t {
      case Done(_) =>
      case Revert =>
      case Then(act, more) =>
        if RunAct(c, act, w).Ok? {
          RunAppend(c, more, rest, RunAct(c, act, w).world);
        }
      case Look(view, yes, no) => RunAppend(c, if Answer(w.store, view) then yes else no, rest, w);
    }
  }

  /** The tree of actions that a swap by the adapter amounts to. */
  function AdapterTree(a: Adapter, sender: Address, call: SwapCall, router: Tree, answer: nat): Tree {
    var tail := Append(router, Then(ApproveBy(call.adapter, call.tokenIn, a.router, 0), Done(answer)));
    Then(PullBy(call.adapter, call.tokenIn, sender, call.adapter, call.amountIn),
    Then(ApproveBy(call.adapter, call.tokenIn, a.router, 0),
         if call.amountIn != 0 then Then(ApproveBy(call.adapter, call.tokenIn, a.router, call.amountIn), tail)
             else tail))
  }

  /** With this router, the adapter's tree of actions ends exactly as r does. */
  predicate PlaysAs(c: Chain, a: Adapter, call: SwapCall, router: Tree, r: Outcome, w: World) {
    r.Ok? && RunTree(c, AdapterTree(a, c.self, call, router, r.value), w) == r
  }

  lemma TwoSteps(c: Chain, first: Act, second: Act, rest: Tree, w: World)
    requires RunAct(c, first, w).Ok?
    requires RunAct(c, second, RunAct(c, first, w).world).Ok?
    ensures RunTree(c, Then(first, Then(second, rest)), w)
         == RunTree(c, rest, RunAct(c, second, RunAct(c, first, w).world).world)
  {
    hide RunAct;
  }

  /** A swap by a repository adapter is one of the behaviours that the executor's model grants to outside code. */
  lemma AdapterIsOutsideCode(c: Chain, a: Adapter, routers: Routers, call: SwapCall, w: World)
    requires call.adapter != c.self && call.adapter != c.pool && a.executor == c.self
    requires AdapterSwap(c, a, routers, c.self, call, w).Ok?
    ensures exists router: Tree :: PlaysAs(c, a, call, router, AdapterSwap(c, a, routers, c.self, call, w), w)
  {
    hide Bal, TransferFrom, Approve, RouterCallOf;
    var r := AdapterSwap(c, a, routers, c.self, call, w);
    var pulled := w.(ledger := TransferFrom(w.ledger, c.unlimited, call.tokenIn, call.adapter, c.self, call.adapter,
        call.amountIn).value);
    var w1 := w.(ledger := ApproveRouter(pulled.ledger, call.tokenIn, call.adapter, a.router, call.amountIn));
    var router := routers[(w1.ledger, RouterCallOf(c, a, call).value)];
    var last := Then(ApproveBy(call.adapter, call.tokenIn, a.router, 0), Done(r.value));
    RouterAndReset(c, a, call, router, r, w1);
    var pull, clear, set_ := PullBy(call.adapter, call.tokenIn, c.self, call.adapter, call.amountIn),
        ApproveBy(call.adapter, call.tokenIn, a.router, 0),
            ApproveBy(call.adapter, call.tokenIn, a.router, call.amountIn);
    var tail := Append(router, last);
    PullThenApprove(c, call.adapter, call.tokenIn, a.router, call.amountIn, w, pulled.ledger);
    if call.amountIn != 0 {
      TwoSteps(c, pull, clear, Then(set_, tail), w);
      OneStep(c, set_, tail, pulled.(ledger := Approve(pulled.ledger, call.tokenIn, call.adapter, a.router, 0)), w1);
    } else {
      TwoSteps(c, pull, clear, tail, w);
    }
    assert PlaysAs(c, a, call, router, r, w);
  }

  lemma OneStep(c: Chain, act: Act, rest: Tree, w: World, w': World)
    requires RunAct(c, act, w) == Ok(w', 1)
    ensures RunTree(c, Then(act, rest), w) == RunTree(c, rest, w')
  {
    hide RunAct;
  }

  /** What pulling the input and clearing the router's approval do to the world. */
  lemma PullThenApprove(
      c: Chain, adapter: Address, token: Address, router: Address, amount: nat, w: World, pulled: Ledger)
    requires adapter != c.self && adapter != c.pool
    requires TransferFrom(w.ledger, c.unlimited, token, adapter, c.self, adapter, amount) == Some(pulled)
    ensures RunAct(c, PullBy(adapter, token, c.self, adapter, amount), w) == Ok(w.(ledger := pulled), 1)
    ensures RunAct(c, ApproveBy(adapter, token, router, 0), w.(ledger := pulled))
         == Ok(w.(ledger := Approve(pulled, token, adapter, router, 0)), 1)
  {
    hide TransferFrom, Approve;
  }

  lemma RouterAndReset(c: Chain, a: Adapter, call: SwapCall, router: Tree, r: Outcome, w1: World)
    requires call.adapter != c.self && r.Ok? && RunTree(c, router, w1).Ok?
    requires var w2 := RunTree(c, router, w1).world;
             r.world == w2.(ledger := Approve(w2.ledger, call.tokenIn, call.adapter, a.router, 0))
    ensures RunTree(c, Append(router, Then(ApproveBy(call.adapter, call.tokenIn, a.router, 0), Done(r.value))), w1) == r
  {
    hide Approve;
    var reset := ApproveBy(call.adapter, call.tokenIn, a.router, 0);
    RunAppend(c, router, Then(reset, Done(r.value)), w1);
    var w2 := RunTree(c, router, w1).world;
    assert RunAct(c, reset, w2) == Ok(r.world, 1);
    OneStep(c, reset, Done(r.value), w2, r.world);
  }

  // ---- what the router is asked ----

  /** Only the executor is answered. */
  lemma OnlyExecutorSwaps(c: Chain, a: Adapter, routers: Routers, sender: Address, call: SwapCall, w: World)
    ensures sender != a.executor ==> AdapterSwap(c, a, routers, sender, call, w) == Fail(Unauthorized)
    ensures AdapterSwap(c, a, routers, sender, call, w).Ok? ==> RouterCallOf(c, a, call).Some?
  {
    hide Bal, TransferFrom, ApproveRouter, RouterCallOf, RunTree;
  }

  /** The Aerodrome adapter decodes one flag and asks for one hop of its own factory, between the call's two tokens. */
  lemma AerodromeAsksExactly(c: Chain, a: Adapter, call: SwapCall)
    requires a.Aerodrome?
    ensures RouterCallOf(c, a, call).Some? <==> |call.data| >= 32 && FromBE(call.data[..32]) in {0, 1}
    ensures RouterCallOf(c, a, call).Some? ==>
              exists stable: bool ::
                && FromBE(call.data[..32]) == (if stable then 1 else 0)
                && RouterCallOf(c, a, call)
                   == Some(SwapExactTokens(call.amountIn, call.minOut, call.tokenIn, call.tokenOut, stable, a.factory,
                                           call.recipient, c.timestamp))
  {
    hide FromBE;
    if RouterCallOf(c, a, call).Some? {
      var stable := FromBE(call.data[..32]) == 1;
      assert RouterCallOf(c, a, call)
          == Some(SwapExactTokens(call.amountIn, call.minOut, call.tokenIn, call.tokenOut, stable, a.factory,
                                  call.recipient, c.timestamp));
    }
  }

  /**
   The Uniswap adapter decodes a fee below 2^24 and a price limit below 2^160, and asks either router for just these.
   */
  lemma UniswapAsksExactly(c: Chain, a: Adapter, call: SwapCall)
    requires a.UniswapV3?
    ensures RouterCallOf(c, a, call).Some?
       <==> |call.data| >= 64 && FromBE(call.data[..32]) < 0x100_0000
            && FromBE(call.data[32..64]) < 0x1_0000_0000_0000_0000_0000_0000_0000_0000_0000_0000
    ensures RouterCallOf(c, a, call).Some? ==>
              var fee, limit := FromBE(call.data[..32]), FromBE(call.data[32..64]);
              RouterCallOf(c, a, call)
              == Some(if a.router02
                      then ExactInput02(call.tokenIn, call.tokenOut, fee, call.recipient, call.amountIn, call.minOut,
                          limit)
                      else ExactInputLegacy(call.tokenIn, call.tokenOut, fee, call.recipient, c.timestamp,
                          call.amountIn,
                                            call.minOut, limit))
  {
    hide FromBE, ToBE, Fits;
    assert Pow256(3) == 0x100_0000;
    assert Pow256(7) == 0x100_0000_0000_0000;
    assert Pow256(11) == 0x100_0000_0000_0000_0000_0000;
    assert Pow256(15) == 0x100_0000_0000_0000_0000_0000_0000_0000;
    assert Pow256(20) == 0x1_0000_0000_0000_0000_0000_0000_0000_0000_0000_0000;
    if |call.data| >= 64 {
      FitsIffBelow(FromBE(call.data[..32]), 3);
      FitsIffBelow(FromBE(call.data[32..64]), 20);
    }
  }

  // ---- a router that obeys ----

  /** It pulls its input from its caller to a venue, and the venue pays q of the output, if q is enough. */
  function Obey(router: Address, caller: Address, tokenIn: Address, tokenOut: Address, amountIn: nat, least: nat,
                recipient: Address, venue: Address, q: nat): Tree {
    if q < least then Revert
    else Then(PullBy(router, tokenIn, caller, venue, amountIn),
        Then(TransferBy(venue, tokenOut, recipient, q), Done(0)))
  }

  /**
   What the arguments of a router call ask for, and nothing but the arguments; a deadline that has passed is refused.
   */
  function ObedientRouter(c: Chain, router: Address, caller: Address, asked: RouterCall, venue: Address, q: nat): Tree {
    match asked
    case SwapExactTokens(amountIn, amountOutMin, from, to, _, _, recipient, deadline) =>
      if c.timestamp > deadline then Revert
      else Obey(router, caller, from, to, amountIn, amountOutMin, recipient, venue, q)
    case ExactInputLegacy(tokenIn, tokenOut, _, recipient, deadline, amountIn, amountOutMinimum, _) =>
      if c.timestamp > deadline then Revert
      else Obey(router, caller, tokenIn, tokenOut, amountIn, amountOutMinimum, recipient, venue, q)
    case ExactInput02(tokenIn, tokenOut, _, recipient, amountIn, amountOutMinimum, _) =>
      Obey(router, caller, tokenIn, tokenOut, amountIn, amountOutMinimum, recipient, venue, q)
  }

  /**
   In front of any of the three routers, if it obeys its arguments and its venue is funded, an adapter is
   the exact-input adapter that plans assume: it swaps exactly this leg, or fails where q is below the minimum.
   */
  lemma ObedientRouterDelivers(
      c: Chain, a: Adapter, routers: Routers, leg: Leg, x: nat, venue: Address, q: nat, w: World)
    requires c.honest && Locked(w.store) && Conserved(w.ledger) && a.executor == c.self
    requires leg.adapter != c.self && leg.adapter != c.pool && venue != c.self && venue != leg.adapter
    requires a.router != c.self && leg.tokenIn != leg.tokenOut && 0 < x
    requires Allowed(w.ledger, leg.tokenIn, c.self, leg.adapter) == x && Bal(w.ledger, leg.tokenIn, c.self) >= x
    requires Bal(w.ledger, leg.tokenOut, venue) >= q
    requires RouterCallOf(c, a, SwapOf(c, leg, x)).Some?
    requires var asked := RouterCallOf(c, a, SwapOf(c, leg, x)).value;
             var pulled := TransferFrom(w.ledger, c.unlimited, leg.tokenIn, leg.adapter, c.self, leg.adapter, x);
             pulled.Some? ==>
               var key := (ApproveRouter(pulled.value, leg.tokenIn, leg.adapter, a.router, x), asked);
               key in routers && routers[key] == ObedientRouter(c, a.router, leg.adapter, asked, venue, q)
    ensures var r := AdapterSwap(c, a, routers, c.self, SwapOf(c, leg, x), w);
            && (r.Ok? <==> q >= leg.minOut)
            && (r.Ok? ==> r.value == q && ExactSwap(c, leg, x, q, w.ledger, r.world.ledger))
  {
    hide Bal, Allowed, Approve, Conserved, TransferFrom, Transfer, RouterCallOf, RunTree, ApproveRouter, Supply,
         ObedientRouter;
    var call := SwapOf(c, leg, x);
    TransferFromSucceeds(w.ledger, c.unlimited, leg.tokenIn, leg.adapter, c.self, leg.adapter, x);
    TransferFromEffect(w.ledger, c.unlimited, leg.tokenIn, leg.adapter, c.self, leg.adapter, x);
    TransferFromConserves(w.ledger, c.unlimited, leg.tokenIn, leg.adapter, c.self, leg.adapter, x);
    var pulled := TransferFrom(w.ledger, c.unlimited, leg.tokenIn, leg.adapter, c.self, leg.adapter, x).value;
    ApproveRouterEffect(pulled, leg.tokenIn, leg.adapter, a.router, x);
    var w1 := w.(ledger := ApproveRouter(pulled, leg.tokenIn, leg.adapter, a.router, x));
    ObeysTheCall(c, a, call, venue, q);
    if q < leg.minOut {
      RevertFails(c, w1);
    } else {
      RunExactRouter(c, a.router, call, venue, q, w1);
      var w2 := RunTree(c, ExactRouter(a.router, call, venue, q), w1).world;
      ApproveEffect(w2.ledger, leg.tokenIn, leg.adapter, a.router, 0);
    }
  }

  lemma RevertFails(c: Chain, w: World)
    ensures RunTree(c, Revert, w).Fail?
  {
  }

  /** The swap that the adapter itself was called for, carried out by its router. */
  function ExactRouter(router: Address, call: SwapCall, venue: Address, q: nat): Tree {
    Then(PullBy(router, call.tokenIn, call.adapter, venue, call.amountIn),
    Then(TransferBy(venue, call.tokenOut, call.recipient, q), Done(0)))
  }

  /** What the adapter asks of an obedient router is the swap that it was called for. */
  lemma ObeysTheCall(c: Chain, a: Adapter, call: SwapCall, venue: Address, q: nat)
    requires RouterCallOf(c, a, call).Some?
    ensures ObedientRouter(c, a.router, call.adapter, RouterCallOf(c, a, call).value, venue, q)
         == if q < call.minOut then Revert else ExactRouter(a.router, call, venue, q)
  {
    hide FromBE, Fits;
  }

  lemma RunExactRouter(c: Chain, router: Address, call: SwapCall, venue: Address, q: nat, w: World)
    requires Conserved(w.ledger) && router != c.self && venue != c.self && venue != call.adapter
             && call.adapter != c.self
    requires call.recipient == c.self && call.tokenIn != call.tokenOut
    requires Allowed(w.ledger, call.tokenIn, call.adapter, router) == call.amountIn
             <= Bal(w.ledger, call.tokenIn, call.adapter)
    requires Bal(w.ledger, call.tokenOut, venue) >= q
    ensures var r := RunTree(c, ExactRouter(router, call, venue, q), w);
            && r.Ok?
            && Bal(r.world.ledger, call.tokenOut, c.self) == Bal(w.ledger, call.tokenOut, c.self) + q
            && forall t: Address :: t != call.tokenOut ==> Bal(r.world.ledger, t, c.self) == Bal(w.ledger, t, c.self)
  {
    hide Bal, Allowed, Conserved, TransferFrom, Transfer, Supply;
    TransferFromSucceeds(w.ledger, c.unlimited, call.tokenIn, router, call.adapter, venue, call.amountIn);
    TransferFromEffect(w.ledger, c.unlimited, call.tokenIn, router, call.adapter, venue, call.amountIn);
    TransferFromConserves(w.ledger, c.unlimited, call.tokenIn, router, call.adapter, venue, call.amountIn);
    var l1 := TransferFrom(w.ledger, c.unlimited, call.tokenIn, router, call.adapter, venue, call.amountIn).value;
    TransferSucceeds(l1, call.tokenOut, venue, c.self, q);
    TransferEffect(l1, call.tokenOut, venue, c.self, q);
    var pull, pay := PullBy(router, call.tokenIn, call.adapter, venue, call.amountIn),
        TransferBy(venue, call.tokenOut, call.recipient, q);
    TwoSteps(c, pull, pay, Done(0), w);
  }
}
