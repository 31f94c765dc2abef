/**
 A market written for one run: at every leg the adapter hands its input to a venue and the venue
 pays what the script says. So for every list of deliveries that the venue can pay there is a
 market of granted actions that delivers it.
 */
module ScriptedMarkets {
  import opened PackedFormat
  import opened TokenLedger
  import opened ExecutorModel
  import opened ExecutorCustody
  import opened PlanExecution
  import opened SwapAdapters

  /** What the adapter of a leg does: it pulls its input to the venue, and the venue pays q. */
  function Exchange(c: Chain, leg: Leg, x: nat, venue: Address, q: nat): Tree {
    Then(PullBy(leg.adapter, leg.tokenIn, c.self, venue, x), Then(TransferBy(venue, leg.tokenOut, c.self, q), Done(q)))
  }

  /** The world with the leg's adapter approved for x. */
  function Approved(c: Chain, leg: Leg, x: nat, w: World): World {
    w.(ledger := ApproveRouter(w.ledger, leg.tokenIn, c.self, leg.adapter, x))
  }

  /** The world after such a leg. */
  function Exchanged(c: Chain, leg: Leg, x: nat, venue: Address, q: nat, w: World): World {
    match RunTree(c, Exchange(c, leg, x, venue, q), Approved(c, leg, x, w))
    case Ok(w', _) => Approved(c, leg, 0, w')
    case Fail(_) => w
  }

  predicate CanExchange(c: Chain, leg: Leg, x: nat, venue: Address, q: nat, l: Ledger) {
    && leg.adapter != c.self && leg.adapter != c.pool && venue != c.self && leg.tokenIn != leg.tokenOut
    && 0 < x <= Bal(l, leg.tokenIn, c.self) && q <= Bal(l, leg.tokenOut, venue)
  }

  /** The exchange moves x one way and q the other between the contract and the venue, and nothing else. */
  ghost predicate Traded(c: Chain, leg: Leg, x: nat, venue: Address, q: nat, l: Ledger, l': Ledger) {
    && ExactSwap(c, leg, x, q, l, l')
    && Bal(l', leg.tokenIn, venue) == Bal(l, leg.tokenIn, venue) + x
    && Bal(l', leg.tokenOut, venue) == Bal(l, leg.tokenOut, venue) - q
    && (forall t: Address :: t != leg.tokenIn && t != leg.tokenOut ==> Bal(l', t, venue) == Bal(l, t, venue))
    && Conserved(l')
  }

  lemma ForceApproves(c: Chain, market: Market, token: Address, spender: Address, amount: nat, w: World)
    requires c.honest
    ensures ForceApprove(c, market, token, spender, amount, w)
         == Ok(w.(ledger := ApproveRouter(w.ledger, token, c.self, spender, amount)), 1)
  {
    hide Approve;
    HonestApproveOnce(c, market, token, spender, 0, w);
    HonestApproveOnce(c, market, token, spender, amount, w.(ledger := Approve(w.ledger, token, c.self, spender, 0)));
  }

  lemma ExchangeTrades(c: Chain, leg: Leg, x: nat, venue: Address, q: nat, w: World)
    requires Conserved(w.ledger) && CanExchange(c, leg, x, venue, q, w.ledger)
    ensures var w1, w' := Approved(c, leg, x, w), Exchanged(c, leg, x, venue, q, w);
            var r := RunTree(c, Exchange(c, leg, x, venue, q), w1);
            && r.Ok? && r.value == q && w' == Approved(c, leg, 0, r.world) && w' == w.(ledger := w'.ledger)
            && ExactSwap(c, leg, x, q, w1.ledger, r.world.ledger)
            && Traded(c, leg, x, venue, q, w.ledger, w'.ledger)
  {
    hide Bal, Allowed, Conserved, TransferFrom, Transfer, Supply, ApproveRouter;
    var w1 := Approved(c, leg, x, w);
    ApproveRouterEffect(w.ledger, leg.tokenIn, c.self, leg.adapter, x);
    TransferFromSucceeds(w1.ledger, c.unlimited, leg.tokenIn, leg.adapter, c.self, venue, x);
    TransferFromEffect(w1.ledger, c.unlimited, leg.tokenIn, leg.adapter, c.self, venue, x);
    TransferFromConserves(w1.ledger, c.unlimited, leg.tokenIn, leg.adapter, c.self, venue, x);
    var l1 := TransferFrom(w1.ledger, c.unlimited, leg.tokenIn, leg.adapter, c.self, venue, x).value;
    TransferSucceeds(l1, leg.tokenOut, venue, c.self, q);
    TransferEffect(l1, leg.tokenOut, venue, c.self, q);
    TransferConserves(l1, leg.tokenOut, venue, c.self, q);
    var l2 := Transfer(l1, leg.tokenOut, venue, c.self, q).value;
    var pull, pay := PullBy(leg.adapter, leg.tokenIn, c.self, venue, x), TransferBy(venue, leg.tokenOut, c.self, q);
    TwoSteps(c, pull, pay, Done(q), w1);
    ApproveRouterEffect(l2, leg.tokenIn, c.self, leg.adapter, 0);
  }

  // ---- a whole chain ----

  /** From leg i on, the venue can pay every delivery and the contract has something to give for it. */
  predicate Payable(c: Chain, legs: seq<Leg>, d: seq<nat>, venue: Address, i: nat, amount: nat, w: World)
    requires |d| == |legs|
    decreases |legs| - i
  {
    i < |legs| ==>
      var x := LegInput(c, legs, i, amount, w);
      && CanExchange(c, legs[i], x, venue, d[i], w.ledger)
      && Payable(c, legs, d, venue, i + 1, amount, Exchanged(c, legs[i], x, venue, d[i], w))
  }

  function Script(
      c: Chain, legs: seq<Leg>, d: seq<nat>, venue: Address, i: nat, amount: nat, w: World)
    : map<(Ledger, SwapCall), Tree>
    requires |d| == |legs|
    decreases |legs| - i
  {
    if i >= |legs| then map[]
    else
      var x := LegInput(c, legs, i, amount, w);
      var rest := Script(c, legs, d, venue, i + 1, amount, Exchanged(c, legs[i], x, venue, d[i], w));
      rest[(Approved(c, legs[i], x, w).ledger, SwapOf(c, legs[i], x)) := Exchange(c, legs[i], x, venue, d[i])]
  }

  predicate CallOfLeg(c: Chain, call: SwapCall, leg: Leg) {
    call == SwapOf(c, leg, call.amountIn)
  }

  lemma {:induction false} ScriptCalls(
      c: Chain, legs: seq<Leg>, d: seq<nat>, venue: Address, i: nat, amount: nat, w: World, l: Ledger, call: SwapCall)
    requires |d| == |legs| && (l, call) in Script(c, legs, d, venue, i, amount, w)
    ensures exists k :: i <= k < |legs| && CallOfLeg(c, call, legs[k])
    decreases |legs| - i
  {
    hide Exchanged, Exchange, Approved;
    var x := LegInput(c, legs, i, amount, w);
    if call == SwapOf(c, legs[i], x) {
      assert CallOfLeg(c, call, legs[i]);
    } else {
      ScriptCalls(c, legs, d, venue, i + 1, amount, Exchanged(c, legs[i], x, venue, d[i], w), l, call);
    }
  }

  predicate AllDifferent(legs: seq<Leg>) {
    forall i, j :: 0 <= i < j < |legs| ==> legs[i] != legs[j]
  }

  predicate Follows(market: Market, script: map<(Ledger, SwapCall), Tree>) {
    forall key :: key in script ==> key in market.swaps && market.swaps[key] == script[key]
  }

  lemma RestFollows(
      c: Chain, market: Market, legs: seq<Leg>, d: seq<nat>, venue: Address, i: nat, amount: nat, w: World)
    requires |d| == |legs| && i < |legs| && AllDifferent(legs)
    requires Follows(market, Script(c, legs, d, venue, i, amount, w))
    ensures var x := LegInput(c, legs, i, amount, w);
            && RunSwap(c, market, SwapOf(c, legs[i], x), Approved(c, legs[i], x, w))
               == RunTree(c, Exchange(c, legs[i], x, venue, d[i]), Approved(c, legs[i], x, w))
            && Follows(market, Script(c, legs, d, venue, i + 1, amount, Exchanged(c, legs[i], x, venue, d[i], w)))
  {
    hide Exchanged, Exchange, Approved, RunTree;
    var x := LegInput(c, legs, i, amount, w);
    var next := Exchanged(c, legs[i], x, venue, d[i], w);
    var rest := Script(c, legs, d, venue, i + 1, amount, next);
    var key := (Approved(c, legs[i], x, w).ledger, SwapOf(c, legs[i], x));
    if key in rest {
      ScriptCalls(c, legs, d, venue, i + 1, amount, next, key.0, key.1);
      assert false;
    }
    var script := Script(c, legs, d, venue, i, amount, w);
    assert key in script && script[key] == Exchange(c, legs[i], x, venue, d[i]);
    forall k | k in rest
      ensures k in script && script[k] == rest[k]
    {
    }
  }

  /** Every payable list of deliveries is delivered by a market that follows its script. */
  lemma {:induction false} ScriptDelivers(
      c: Chain, market: Market, legs: seq<Leg>, d: seq<nat>, venue: Address, i: nat, amount: nat, w: World)
    requires c.honest && |d| == |legs| && AllDifferent(legs) && Conserved(w.ledger)
    requires Payable(c, legs, d, venue, i, amount, w)
    requires Follows(market, Script(c, legs, d, venue, i, amount, w))
    ensures Delivers(c, market, legs, d, i, amount, w)
    decreases |legs| - i
  {
    hide Bal, Conserved, Exchanged, Exchange, Script, Follows, RunSwap, RunTree, ForceApprove, ExactSwap, CanExchange,
         LegInput, AllDifferent;
    if i < |legs| {
      var x := LegInput(c, legs, i, amount, w);
      ExchangeTrades(c, legs[i], x, venue, d[i], w);
      ForceApproves(c, market, legs[i].tokenIn, legs[i].adapter, x, w);
      RestFollows(c, market, legs, d, venue, i, amount, w);
      var w2 := RunTree(c, Exchange(c, legs[i], x, venue, d[i]), Approved(c, legs[i], x, w)).world;
      ForceApproves(c, market, legs[i].tokenIn, legs[i].adapter, 0, w2);
      ScriptDelivers(c, market, legs, d, venue, i + 1, amount, Exchanged(c, legs[i], x, venue, d[i], w));
    }
  }
}
