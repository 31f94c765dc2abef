/**
 Two concrete operations that show where a property ends: a route that passes the asset midway and
 takes the spare balance along, and a loan of the largest word that leaves its allowance behind.
 */
module Witnesses {
  import opened PackedFormat
  import opened TokenLedger
  import opened Commitment
  import opened ExecutorModel
  import opened ExecutorAuthority
  import opened ExecutorRuns
  import opened ExecutorValidation
  import opened PlanExecution
  import opened RouteExecution
  import opened ScriptedMarkets

  const SELF: Address := 1
  const POOL: Address := 2
  const VENUE: Address := 3
  const OWNER: Address := 4
  const ASSET: Address := 11
  const MIDDLE: Address := 12
  const OTHER: Address := 13

  function TheChain(): Chain {
    Chain(SELF, POOL, 100, 1000, true, true)
  }

  function ReadyStore(): Store {
    DeployedStore(OWNER).(adapterAllowed := {21, 22, 23, 24}, tokenAllowed := {ASSET, MIDDLE, OTHER}, paused := false)
  }

  function Ready(l: Ledger): World {
    World(l, ReadyStore(), [], map[])
  }

  // ---- ledgers ----

  ghost predicate Untouched(l: Ledger) {
    Conserved(l) && forall t: Address, h: Address, s: Address :: Allowed(l, t, h, s) == 0
  }

  function Empty(): Ledger {
    Ledger(map[], map[], map[], map[])
  }

  lemma EmptyUntouched()
    ensures Untouched(Empty())
    ensures forall t: Address, a: Address :: Bal(Empty(), t, a) == 0
    ensures forall t: Address :: Supply(Empty(), t) == 0
  {
  }

  function Issued(l: Ledger, token: Address, to: Address, n: nat): Ledger {
    match Mint(l, token, to, n)
    case Some(l') => l'
    case None => l
  }

  lemma IssuedEffect(l: Ledger, token: Address, to: Address, n: nat)
    requires Untouched(l) && Supply(l, token) + n <= MAX_UINT
    ensures var l' := Issued(l, token, to, n);
            && Untouched(l')
            && (forall t: Address, a: Address :: Bal(l', t, a) == Bal(l, t, a) + if t == token && a == to then n else 0)
            && (forall t: Address :: Supply(l', t) == Supply(l, t) + if t == token then n else 0)
  {
    hide Sum;
    TwoBalances(l, token, to, to + 1);
    assert Total(l, token) <= Supply(l, token);
    IssueSucceeds(l, token, to, n);
    MintEffect(l, token, to, n);
    MintConserves(l, token, to, n);
  }

  lemma IssueSucceeds(l: Ledger, token: Address, to: Address, n: nat)
    requires Supply(l, token) + n <= MAX_UINT && Bal(l, token, to) <= Supply(l, token)
    ensures Mint(l, token, to, n).Some?
  {
    hide Bal, Supply;
  }

  // ---- an operation of the owner ----

  function RouteOf(amount: nat, legs: seq<Leg>): Route {
    var route := Route(ZeroHash, ASSET, amount, 0, 100, 1000, legs);
    route.(routeHash := RouteDigest(route))
  }

  /** The market in which the venue makes these deliveries to the route's legs. */
  function MarketFor(route: Route, d: seq<nat>, w: World): Market
    requires |d| == |route.legs| && Transfer(w.ledger, ASSET, POOL, SELF, route.amount).Some? && route.asset == ASSET
  {
    Market(Script(TheChain(), route.legs, d, VENUE, 0, route.amount, Called(TheChain(), route, w)), map[])
  }

  /** The owner's route commits at no premium where the venue can pay deliveries that pay the loan back. */
  lemma OwnerCommits(route: Route, d: seq<nat>, l: Ledger)
    requires route == RouteOf(route.amount, route.legs) && 0 < route.amount <= Bal(l, ASSET, POOL)
             && |d| == |route.legs|
    requires Untouched(l) && LegsAccepted(ReadyStore(), ASSET, route.legs) && Clean(l, SELF, ASSET, route.legs)
    requires AllDifferent(route.legs) && Pays(route, 0, d, Bal(l, ASSET, SELF))
    requires Transfer(l, ASSET, POOL, SELF, route.amount).Some? ==>
               Payable(TheChain(), route.legs, d, VENUE, 0, route.amount, Called(TheChain(), route, Ready(l)))
    ensures Transfer(l, ASSET, POOL, SELF, route.amount).Some?
    ensures var c, w := TheChain(), Ready(l);
            var market := MarketFor(route, d, w);
            && Invariant(c, w) && c.self != c.pool && c.honest
            && Delivers(c, market, route.legs, d, 0, route.amount, Called(c, route, w))
            && DoStart(c, OWNER, route, HonestPool(0, market), w).Ok?
  {
    hide Bal, Allowed, Conserved, Transfer, Payable, Pays, DoStart, StartError, Delivers, Clean, LegsAccepted,
         RouteDigest, AllDifferent, Script, Supply;
    var c, w := TheChain(), Ready(l);
    AtRestBefore(l);
    TransferSucceeds(l, ASSET, POOL, SELF, route.amount);
    TransferConserves(l, ASSET, POOL, SELF, route.amount);
    StartAdmitsExactly(c, OWNER, route, w);
    assert RouteAccepted(w.store, route);
    DigestIgnoresHash(route);
    assert Premium(route.amount, 0) == 0;
    var market := MarketFor(route, d, w);
    ScriptDelivers(c, market, route.legs, d, VENUE, 0, route.amount, Called(c, route, w));
    StartCommitsExactly(c, OWNER, route, 0, market, d, w);
  }

  lemma DigestIgnoresHash(route: Route)
    ensures RouteDigest(route) == RouteDigest(route.(routeHash := ZeroHash))
  {
  }

  lemma AtRestBefore(l: Ledger)
    requires Untouched(l)
    ensures Invariant(TheChain(), Ready(l))
  {
    hide Allowed, Conserved;
  }

  // ---- passing the asset midway ----

  /** Asset to MIDDLE, back to the asset, on to OTHER, and back again. */
  function MidwayLegs(): seq<Leg> {
    [Leg(21, ASSET, MIDDLE, 10, []), Leg(22, MIDDLE, ASSET, 10, []), Leg(23, ASSET, OTHER, 10, []),
        Leg(24, OTHER, ASSET, 10, [])]
  }

  /** The contract owns 5 of the asset before it borrows 10. */
  function MidwayLedger(): Ledger {
    Issued(Issued(Issued(Issued(Empty(), ASSET, SELF, 5), ASSET, POOL, 10), MIDDLE, VENUE, 10), OTHER, VENUE, 15)
  }

  const MIDWAY_DELIVERIES: seq<nat> := [10, 10, 15, 15]

  /** What contract and venue hold of the three tokens. */
  predicate Holds(l: Ledger, asset: nat, middle: nat, other: nat, venueAsset: nat, venueMiddle: nat, venueOther: nat) {
    && Bal(l, ASSET, SELF) == asset && Bal(l, MIDDLE, SELF) == middle && Bal(l, OTHER, SELF) == other
    && Bal(l, ASSET, VENUE) == venueAsset && Bal(l, MIDDLE, VENUE) == venueMiddle && Bal(l, OTHER, VENUE) == venueOther
  }

  lemma MidwayLedgerHolds()
    ensures var l := MidwayLedger(); Untouched(l) && Holds(l, 5, 0, 0, 0, 10, 15) && Bal(l, ASSET, POOL) == 10
  {
    hide Bal, Allowed, Conserved, Supply, Issued, Empty;
    EmptyUntouched();
    IssuedEffect(Empty(), ASSET, SELF, 5);
    var l1 := Issued(Empty(), ASSET, SELF, 5);
    IssuedEffect(l1, ASSET, POOL, 10);
    var l2 := Issued(l1, ASSET, POOL, 10);
    IssuedEffect(l2, MIDDLE, VENUE, 10);
    IssuedEffect(Issued(l2, MIDDLE, VENUE, 10), OTHER, VENUE, 15);
  }

  lemma SecondHalfPayable(w: World)
    requires Conserved(w.ledger) && Holds(w.ledger, 15, 0, 0, 0, 10, 15)
    ensures Payable(TheChain(), MidwayLegs(), MIDWAY_DELIVERIES, VENUE, 2, 10, w)
  {
    hide Bal, Conserved, Exchanged, Payable;
    var c, legs, d := TheChain(), MidwayLegs(), MIDWAY_DELIVERIES;
    ExchangeTrades(c, legs[2], 15, VENUE, 15, w);
    var w1 := Exchanged(c, legs[2], 15, VENUE, 15, w);
    assert Holds(w1.ledger, 0, 0, 15, 15, 10, 0);
    LastPayable(c, legs, d, 3, 10, w1);
    OnePayable(c, legs, d, 2, 10, w);
  }

  lemma WayBackPayable(w: World)
    requires Conserved(w.ledger) && Holds(w.ledger, 5, 10, 0, 10, 0, 15)
    ensures Payable(TheChain(), MidwayLegs(), MIDWAY_DELIVERIES, VENUE, 1, 10, w)
  {
    hide Bal, Conserved, Exchanged, Payable;
    var c, legs, d := TheChain(), MidwayLegs(), MIDWAY_DELIVERIES;
    ExchangeTrades(c, legs[1], 10, VENUE, 10, w);
    var w1 := Exchanged(c, legs[1], 10, VENUE, 10, w);
    assert Holds(w1.ledger, 15, 0, 0, 0, 10, 15);
    SecondHalfPayable(w1);
    OnePayable(c, legs, d, 1, 10, w);
  }

  lemma MidwayPayable(w: World)
    requires Conserved(w.ledger) && Holds(w.ledger, 15, 0, 0, 0, 10, 15)
    ensures Payable(TheChain(), MidwayLegs(), MIDWAY_DELIVERIES, VENUE, 0, 10, w)
  {
    hide Bal, Conserved, Exchanged, Payable;
    var c, legs, d := TheChain(), MidwayLegs(), MIDWAY_DELIVERIES;
    ExchangeTrades(c, legs[0], 10, VENUE, 10, w);
    var w1 := Exchanged(c, legs[0], 10, VENUE, 10, w);
    assert Holds(w1.ledger, 5, 10, 0, 10, 0, 15);
    WayBackPayable(w1);
    OnePayable(c, legs, d, 0, 10, w);
  }

  lemma OnePayable(c: Chain, legs: seq<Leg>, d: seq<nat>, i: nat, amount: nat, w: World)
    requires |d| == |legs| && i < |legs|
    requires var x := LegInput(c, legs, i, amount, w);
             CanExchange(c, legs[i], x, VENUE, d[i], w.ledger)
             && Payable(c, legs, d, VENUE, i + 1, amount, Exchanged(c, legs[i], x, VENUE, d[i], w))
    ensures Payable(c, legs, d, VENUE, i, amount, w)
  {
    hide Bal, Exchanged;
  }

  lemma LastPayable(c: Chain, legs: seq<Leg>, d: seq<nat>, i: nat, amount: nat, w: World)
    requires |d| == |legs| && i + 1 == |legs|
             && CanExchange(c, legs[i], LegInput(c, legs, i, amount, w), VENUE, d[i], w.ledger)
    ensures Payable(c, legs, d, VENUE, i, amount, w)
  {
    hide Bal, Exchanged;
  }

  /**
   An accepted route on clean intermediates that commits, and whose third leg spends 15 where the second
   delivered 10: passing the asset midway, it took the 5 along that the contract held before the loan.
   */
  lemma MidwayTakesTheSpare()
    ensures Transfer(MidwayLedger(), ASSET, POOL, SELF, 10).Some?
    ensures var c, w, route, d := TheChain(), Ready(MidwayLedger()), RouteOf(10, MidwayLegs()), MIDWAY_DELIVERIES;
            var market, v := MarketFor(route, d, w), Called(c, route, w);
            var third := Reach(c, market, route.legs, 2, 10, v);
            && RouteAccepted(w.store, route) && Clean(w.ledger, SELF, ASSET, route.legs)
                 && Bal(w.ledger, ASSET, SELF) == 5
            && Delivers(c, market, route.legs, d, 0, 10, v)
            && DoStart(c, OWNER, route, HonestPool(0, market), w).Ok?
            && third.Ok? && LegInput(c, route.legs, 2, 10, third.world) == 15 && d[1] == 10
  {
    hide Bal, Allowed, Conserved, Supply, Issued, Transfer, DoStart, Reach, Delivers, Payable, RouteDigest,
         MidwayLedger, Script, ExecuteLegs, Invariant, StartError;
    var c, l, route, d := TheChain(), MidwayLedger(), RouteOf(10, MidwayLegs()), MIDWAY_DELIVERIES;
    MidwayLedgerHolds();
    TransferSucceeds(l, ASSET, POOL, SELF, 10);
    TransferEffect(l, ASSET, POOL, SELF, 10);
    TransferConserves(l, ASSET, POOL, SELF, 10);
    var v := Called(c, route, Ready(l));
    MidwayPayable(v);
    OwnerCommits(route, d, l);
    var market := MarketFor(route, d, Ready(l));
    ExactChain(c, market, ASSET, route.legs, d, 0, 10, 5, v);
    ReachSplits(c, market, route.legs, 2, 10, v);
    ReachHolds(c, market, ASSET, route.legs, d, 2, 10, v);
  }

  // ---- the largest loan ----

  function LargestLegs(): seq<Leg> {
    [Leg(21, ASSET, MIDDLE, 1, []), Leg(22, MIDDLE, ASSET, MAX_UINT, [])]
  }

  function LargestLedger(): Ledger {
    Issued(Issued(Empty(), ASSET, POOL, MAX_UINT), MIDDLE, VENUE, 1)
  }

  lemma LargestLedgerHolds()
    ensures var l := LargestLedger(); Untouched(l) && Holds(l, 0, 0, 0, 0, 1, 0) && Bal(l, ASSET, POOL) == MAX_UINT
  {
    hide Bal, Allowed, Conserved, Supply, Issued, Empty;
    EmptyUntouched();
    IssuedEffect(Empty(), ASSET, POOL, MAX_UINT);
    IssuedEffect(Issued(Empty(), ASSET, POOL, MAX_UINT), MIDDLE, VENUE, 1);
  }

  lemma LargestPayable(w: World)
    requires Conserved(w.ledger) && Holds(w.ledger, MAX_UINT, 0, 0, 0, 1, 0)
    ensures Payable(TheChain(), LargestLegs(), [1, MAX_UINT], VENUE, 0, MAX_UINT, w)
  {
    hide Bal, Conserved, Exchanged, Payable;
    var c, legs, d := TheChain(), LargestLegs(), [1, MAX_UINT];
    ExchangeTrades(c, legs[0], MAX_UINT, VENUE, 1, w);
    var w1 := Exchanged(c, legs[0], MAX_UINT, VENUE, 1, w);
    assert Holds(w1.ledger, 0, 1, 0, MAX_UINT, 0, 0);
    LastPayable(c, legs, d, 1, MAX_UINT, w1);
    OnePayable(c, legs, d, 0, MAX_UINT, w);
  }

  /**
   A run of one transaction, the owner's loan of the largest word at no premium, after which the pool
   keeps the largest allowance of a token that never uses it up.
   */
  lemma LargestLoanLeavesAllowance()
    ensures Transfer(LargestLedger(), ASSET, POOL, SELF, MAX_UINT).Some?
    ensures var c, w, route := TheChain(), Ready(LargestLedger()), RouteOf(MAX_UINT, LargestLegs());
            var tx := Tx(c.number, c.timestamp,
                Enter(OWNER, Start(route, HonestPool(0, MarketFor(route, [1, MAX_UINT], w)))));
            && c.self != c.pool && c.honest && Invariant(c, w)
            && Allowed(Run(c, [tx], w).ledger, ASSET, SELF, POOL) == MAX_UINT
  {
    hide Bal, Allowed, Conserved, Supply, Issued, Transfer, DoStart, Delivers, Payable, RouteDigest, LargestLedger,
         Script, Invariant, StartError;
    var c, l, route, d := TheChain(), LargestLedger(), RouteOf(MAX_UINT, LargestLegs()), [1, MAX_UINT];
    LargestLedgerHolds();
    TransferSucceeds(l, ASSET, POOL, SELF, MAX_UINT);
    TransferEffect(l, ASSET, POOL, SELF, MAX_UINT);
    TransferConserves(l, ASSET, POOL, SELF, MAX_UINT);
    LargestPayable(Called(c, route, Ready(l)));
    OwnerCommits(route, d, l);
    var pool := HonestPool(0, MarketFor(route, d, Ready(l)));
    StartGains(c, OWNER, route, pool, Ready(l));
    var tx := Tx(c.number, c.timestamp, Enter(OWNER, Start(route, pool)));
    assert [tx][..0] == [];
    OneTransaction(c, tx, Ready(l));
    assert Run(c, [tx], Ready(l)) == DoStart(c, OWNER, route, pool, Ready(l)).world;
  }

  lemma OneTransaction(c: Chain, tx: Tx, w: World)
    requires tx.number == c.number && tx.timestamp == c.timestamp && RunAct(c, tx.act, w).Ok?
    ensures Run(c, [tx], w) == RunAct(c, tx.act, w).world
  {
    hide RunAct;
    assert [tx][..0] == [];
    assert At(c, tx) == c;
  }
}
