/**
 The executor contract as a state machine over one world: token ledger, contract storage and
 the log of committed operations. Code outside the contract (adapters, tokens, the pool, any
 caller) is a finite tree of actions that may call back into the contract; a reverted call
 leaves the world as it was.
 */
module ExecutorModel {
  import opened Bytes
  import opened PackedFormat
  import opened TokenLedger
  import opened Commitment

  // ---- state ----

  datatype Store = Store(
    owner: Address,
    pendingOwner: Address,
    adapterAllowed: set<Address>,
    tokenAllowed: set<Address>,
    commitmentUsed: set<Hash>,
    paused: bool,
    activeRouteHash: Hash,
    activeBatchHash: Hash,
    activePreLoanBalance: nat,
    activePremium: nat,
    activeSelectedCandidateId: nat,
    activeSelectedCandidateIndex: nat,
    activeSelectedMinProfit: nat,
    callbackEntered: bool,
    operationEntered: bool)

  datatype Event =
    | RouteExecuted(commitment: Hash, asset: Address, amount: nat, premium: nat, netProfit: nat)
    | PackedRouteExecuted(commitment: Hash, candidateId: nat, candidateIndex: nat, asset: Address, amount: nat,
                          premium: nat, netProfit: nat)

  /** `swept` is history: how much of each token the owner has swept out so far. */
  datatype World = World(ledger: Ledger, store: Store, events: seq<Event>, swept: map<Address, nat>)

  /**
   What does not change within a transaction. `honest`: tokens follow TokenLedger and do not call
   out, and the pool lends and pulls as the flash-loan contract says; otherwise both are arbitrary.
   `unlimited`: an allowance of the largest word is never used up.
   */
  datatype Chain = Chain(self: Address, pool: Address, number: nat, timestamp: nat, honest: bool, unlimited: bool)

  datatype Error =
    | Unauthorized | InvalidRoute | StaleRoute | InsufficientRepayment | ProfitTooLow | Reentrant | Paused
    | DirtyIntermediateBalance(token: Address, balance: nat) | SwapOutputMismatch(leg: nat)
    | TokenCallFailed(token: Address)
    | InvalidPackedBatch | NoCandidateSucceeded | CommitmentAlreadyUsed
    | ArithmeticPanic | Undecodable | OutsideRevert

  datatype Outcome = Ok(world: World, value: nat) | Fail(error: Error)

  // ---- code outside the contract ----

  datatype Tree =
    | Done(value: nat)
    | Revert
    | Then(act: Act, rest: Tree)
    | Look(view: View, yes: Tree, no: Tree)

  /** What anybody can ask the contract at any time: its public getters, as yes-or-no questions. */
  datatype View =
    | OwnerIs(who: Address) | PendingOwnerIs(who: Address) | AllowsAdapter(adapter: Address)
    | AllowsToken(token: Address)
    | HasUsed(commitment: Hash) | IsPaused

  datatype Act =
    | TransferBy(actor: Address, token: Address, to: Address, amount: nat)
    | PullBy(actor: Address, token: Address, from: Address, to: Address, amount: nat)
    | ApproveBy(actor: Address, token: Address, spender: Address, amount: nat)
    | Issue(token: Address, to: Address, amount: nat)
    | Touch(key: int, data: int)
    | Forge(ledger: Ledger)
    | Attempt(body: Tree)
    | Enter(sender: Address, entry: Entry)

  datatype Entry =
    | SetAdapter(adapter: Address, allowed: bool)
    | SetToken(token: Address, allowed: bool)
    | SetPaused(value: bool)
    | TransferOwnership(next: Address)
    | AcceptOwnership
    | Start(route: Route, pool: PoolCode)
    | StartPacked(packed: seq<Byte>, pool: PoolCode)
    | ExecuteOperation(asset: Address, amount: nat, premium: nat, initiator: Address, params: Params, market: Market)
    | AttemptPackedCandidate(candidate: Candidate, asset: Address, amount: nat, premium: nat, market: Market)
    | Sweep(token: Address, to: Address, amount: nat, market: Market)

  /** Calldata handed through the pool: an ABI-encoded route, or any other bytes. */
  datatype Params = EncodedRoute(route: Route) | RawParams(raw: seq<Byte>)

  datatype SwapCall = SwapCall(adapter: Address, tokenIn: Address, tokenOut: Address, amountIn: nat, minOut: nat,
                               recipient: Address, data: seq<Byte>)

  datatype TokenCall = ApproveCall(token: Address, spender: Address, amount: nat)
      | TransferCall(token: Address, to: Address, amount: nat)

  /**
   How adapters answer a swap and how dishonest tokens answer a call, as a function of the ledger
   (balances, allowances, and the state of every other contract) and of the call.
   */
  datatype Market = Market(swaps: map<(Ledger, SwapCall), Tree>, hooks: map<(Ledger, TokenCall), Tree>)

  datatype PoolCode = HonestPool(premiumBps: nat, market: Market) | AnyPool(body: Tree)

  function ParamsHash(p: Params): Hash {
    match p
    case EncodedRoute(r) => Digest(AbiRoute(r))
    case RawParams(raw) => Digest(RawBytes(raw))
  }

  function DeployedStore(owner: Address): Store {
    Store(owner, 0, {}, {}, {}, true, ZeroHash, ZeroHash, 0, 0, 0, 0, 0, false, false)
  }

  // ---- validation ----

  function LegError(s: Store, l: Leg): Option<Error> {
    if l.adapter !in s.adapterAllowed || l.tokenIn !in s.tokenAllowed || l.tokenOut !in s.tokenAllowed
        then Some(Unauthorized)
    else if l.tokenIn == l.tokenOut then Some(InvalidRoute)
    else None
  }

  function FirstLegError(s: Store, legs: seq<Leg>, i: nat): Option<Error>
    decreases |legs| - i
  {
    if i >= |legs| then None
    else if LegError(s, legs[i]).Some? then LegError(s, legs[i])
    else FirstLegError(s, legs, i + 1)
  }

  predicate Chained(legs: seq<Leg>) {
    forall i :: 0 <= i < |legs| - 1 ==> legs[i].tokenOut == legs[i + 1].tokenIn
  }

  function RouteError(s: Store, r: Route): Option<Error> {
    if r.asset == 0 || r.amount == 0 || |r.legs| < 2 then Some(InvalidRoute)
    else if r.asset !in s.tokenAllowed then Some(Unauthorized)
    else if r.legs[0].tokenIn != r.asset || r.legs[|r.legs| - 1].tokenOut != r.asset then Some(InvalidRoute)
    else if FirstLegError(s, r.legs, 0).Some? then FirstLegError(s, r.legs, 0)
    else if !Chained(r.legs) then Some(InvalidRoute)
    else None
  }

  /** In a packed candidate each leg is checked together with its link to the next. */
  function FirstLinkError(s: Store, legs: seq<Leg>, i: nat): Option<Error>
    decreases |legs| - i
  {
    if i >= |legs| then None
    else if LegError(s, legs[i]).Some? then LegError(s, legs[i])
    else if i + 1 < |legs| && legs[i].tokenOut != legs[i + 1].tokenIn then Some(InvalidRoute)
    else FirstLinkError(s, legs, i + 1)
  }

  function CandidateError(s: Store, asset: Address, c: Candidate): Option<Error> {
    if c.candidateId == 0 || |c.legs| < 2 || |c.legs| > MAX_PACKED_LEGS then Some(InvalidRoute)
    else if c.legs[0].tokenIn != asset || c.legs[|c.legs| - 1].tokenOut != asset then Some(InvalidRoute)
    else FirstLinkError(s, c.legs, 0)
  }

  function FirstCandidateError(s: Store, asset: Address, cs: seq<Candidate>, i: nat): Option<Error>
    decreases |cs| - i
  {
    if i >= |cs| then None
    else if CandidateError(s, asset, cs[i]).Some? then CandidateError(s, asset, cs[i])
    else FirstCandidateError(s, asset, cs, i + 1)
  }

  function BatchError(s: Store, b: Batch): Option<Error> {
    if b.asset == 0 || b.amount == 0 || |b.candidates| == 0 || |b.candidates| > MAX_PACKED_CANDIDATES
        then Some(InvalidPackedBatch)
    else if b.asset !in s.tokenAllowed then Some(Unauthorized)
    else FirstCandidateError(s, b.asset, b.candidates, 0)
  }

  function FirstDirty(l: Ledger, self: Address, asset: Address, legs: seq<Leg>, i: nat): Option<Error>
    decreases |legs| - i
  {
    if i + 1 >= |legs| then None
    else if legs[i].tokenOut != asset && Bal(l, legs[i].tokenOut, self) != 0
    then Some(DirtyIntermediateBalance(legs[i].tokenOut, Bal(l, legs[i].tokenOut, self)))
    else FirstDirty(l, self, asset, legs, i + 1)
  }

  function FirstDirtyCandidate(l: Ledger, self: Address, asset: Address, cs: seq<Candidate>, i: nat): Option<Error>
    decreases |cs| - i
  {
    if i >= |cs| then None
    else if FirstDirty(l, self, asset, cs[i].legs, 0).Some? then FirstDirty(l, self, asset, cs[i].legs, 0)
    else FirstDirtyCandidate(l, self, asset, cs, i + 1)
  }

  predicate Stale(c: Chain, targetBlock: nat, deadline: nat) {
    c.number > targetBlock || c.timestamp > deadline
  }

  predicate Idle(s: Store) {
    !s.operationEntered && !s.callbackEntered && s.activeRouteHash == ZeroHash && s.activeBatchHash == ZeroHash
  }

  // ---- running outside code ----

  function Answer(s: Store, view: View): bool {
    match view
    case OwnerIs(who) => s.owner == who
    case PendingOwnerIs(who) => s.pendingOwner == who
    case AllowsAdapter(adapter) => adapter in s.adapterAllowed
    case AllowsToken(token) => token in s.tokenAllowed
    case HasUsed(commitment) => commitment in s.commitmentUsed
    case IsPaused => s.paused
  }

  function RunTree(c: Chain, tree: Tree, w: World): Outcome
    decreases tree
  {
    match tree
    case Done(value) => Ok(w, value)
    case Revert => Fail(OutsideRevert)
    case Then(act, rest) =>
      (match RunAct(c, act, w)
       case Fail(e) => Fail(e)
       case Ok(w', _) => RunTree(c, rest, w'))
    case Look(view, yes, no) => RunTree(c, if Answer(w.store, view) then yes else no, w)
  }

  function OnLedger(w: World, l: Option<Ledger>): Outcome {
    match l
    case None => Fail(OutsideRevert)
    case Some(l') => Ok(w.(ledger := l'), 1)
  }

  /**
   Nobody but the contract acts as the contract. With honest tokens nothing forges a ledger, and an
   honest pool pulls from the contract, or names it as the initiator of a loan, only inside FlashLoan.
   */
  predicate Possible(c: Chain, act: Act) {
    match act
    case TransferBy(actor, _, _, _) => actor != c.self
    case PullBy(actor, _, from, _, _) => actor != c.self && !(c.honest && actor == c.pool && from == c.self)
    case ApproveBy(actor, _, _, _) => actor != c.self
    case Issue(_, _, _) => true
    case Touch(_, _) => true
    case Forge(_) => !c.honest
    case Attempt(_) => true
    case Enter(sender, entry) =>
      sender != c.self && !(c.honest && sender == c.pool && entry.ExecuteOperation? && entry.initiator == c.self)
  }

  function RunAct(c: Chain, act: Act, w: World): Outcome
    decreases act
  {
    if !Possible(c, act) then Fail(OutsideRevert)
    else
      match act
      case TransferBy(actor, token, to, amount) => OnLedger(w, Transfer(w.ledger, token, actor, to, amount))
      case PullBy(actor, token, from, to, amount) =>
        OnLedger(w, TransferFrom(w.ledger, c.unlimited, token, actor, from, to, amount))
      case ApproveBy(actor, token, spender, amount) =>
        Ok(w.(ledger := Approve(w.ledger, token, actor, spender, amount)), 1)
      case Issue(token, to, amount) => OnLedger(w, Mint(w.ledger, token, to, amount))
      case Touch(key, data) => Ok(w.(ledger := w.ledger.(dex := w.ledger.dex[key := data])), 1)
      case Forge(l) => Ok(w.(ledger := l), 1)
      case Attempt(body) => (match RunTree(c, body, w) case Ok(w', _) => Ok(w', 1) case Fail(_) => Ok(w, 0))
      case Enter(sender, entry) => Call(c, sender, entry, w)
  }

  /** One message call to the contract. */
  function Call(c: Chain, sender: Address, entry: Entry, w: World): Outcome
    decreases entry
  {
    match entry
    case SetAdapter(adapter, allowed) =>
      Administer(sender, w, w.store.(adapterAllowed := Allow(w.store.adapterAllowed, adapter, allowed)))
    case SetToken(token, allowed) =>
      Administer(sender, w, w.store.(tokenAllowed := Allow(w.store.tokenAllowed, token, allowed)))
    case SetPaused(value) => Administer(sender, w, w.store.(paused := value))
    case TransferOwnership(next) =>
      var r := Administer(sender, w, w.store.(pendingOwner := next));
      if r.Ok? && next == 0 then Fail(Unauthorized) else r
    case AcceptOwnership =>
      if !Idle(w.store) then Fail(Reentrant)
      else if sender != w.store.pendingOwner then Fail(Unauthorized)
      else Ok(w.(store := w.store.(owner := sender, pendingOwner := 0)), 0)
    case Start(route, pool) => DoStart(c, sender, route, pool, w)
    case StartPacked(packed, pool) => DoStartPacked(c, sender, packed, pool, w)
    case ExecuteOperation(asset, amount, premium, initiator, params, market) =>
      DoExecuteOperation(c, sender, asset, amount, premium, initiator, params, market, w)
    case AttemptPackedCandidate(candidate, asset, amount, premium, market) =>
      DoAttempt(c, sender, candidate, asset, amount, premium, market, w)
    case Sweep(token, to, amount, market) => DoSweep(c, sender, token, to, amount, market, w)
  }

  function Allow(set_: set<Address>, a: Address, allowed: bool): set<Address> {
    if allowed then set_ + {a} else set_ - {a}
  }

  function Administer(sender: Address, w: World, s: Store): Outcome {
    if sender != w.store.owner then Fail(Unauthorized)
    else if !Idle(w.store) then Fail(Reentrant)
    else Ok(w.(store := s), 0)
  }

  function Swept(w: World, token: Address): nat {
    if token in w.swept then w.swept[token] else 0
  }

  function DoSweep(
      c: Chain, sender: Address, token: Address, to: Address, amount: nat, market: Market, w: World): Outcome
    decreases market, 6
  {
    if sender != w.store.owner then Fail(Unauthorized)
    else if !Idle(w.store) then Fail(Reentrant)
    else
      match Transfer(w.ledger, token, c.self, to, amount)
      case None => Fail(TokenCallFailed(token))
      case Some(l) =>
        var w1 := w.(ledger := l, swept := w.swept[token := Swept(w, token) + amount]);
        TokenHook(c, market, TransferCall(token, to, amount), token, w1)
  }

  // ---- the contract's own token calls ----

  /** The part of a token call that a dishonest token adds; the answer 0 is the boolean false. */
  function TokenHook(c: Chain, market: Market, call: TokenCall, token: Address, w: World): Outcome
    decreases market, 0
  {
    if c.honest || (w.ledger, call) !in market.hooks then Ok(w, 1)
    else
      match RunTree(c, market.hooks[(w.ledger, call)], w)
      case Ok(w', value) => if value == 0 then Fail(TokenCallFailed(token)) else Ok(w', 1)
      case Fail(_) => Fail(TokenCallFailed(token))
  }

  function ApproveOnce(c: Chain, market: Market, token: Address, spender: Address, amount: nat, w: World): Outcome
    decreases market, 1
  {
    TokenHook(c, market, ApproveCall(token, spender, amount), token,
              w.(ledger := Approve(w.ledger, token, c.self, spender, amount)))
  }

  function ForceApprove(c: Chain, market: Market, token: Address, spender: Address, amount: nat, w: World): Outcome
    decreases market, 2
  {
    match ApproveOnce(c, market, token, spender, 0, w)
    case Fail(e) => Fail(e)
    case Ok(w', _) => if amount != 0 then ApproveOnce(c, market, token, spender, amount, w') else Ok(w', 1)
  }

  // ---- legs ----

  function SwapOf(c: Chain, l: Leg, amountIn: nat): SwapCall {
    SwapCall(l.adapter, l.tokenIn, l.tokenOut, amountIn, l.minOut, c.self, l.data)
  }

  function RunSwap(c: Chain, market: Market, call: SwapCall, w: World): Outcome
    decreases market, 0
  {
    if (w.ledger, call) in market.swaps then RunTree(c, market.swaps[(w.ledger, call)], w) else Fail(OutsideRevert)
  }

  function LegInput(c: Chain, legs: seq<Leg>, i: nat, firstAmount: nat, w: World): nat
    requires i < |legs|
  {
    if i == 0 then firstAmount else Bal(w.ledger, legs[i].tokenIn, c.self)
  }

  function RunLeg(c: Chain, market: Market, legs: seq<Leg>, i: nat, firstAmount: nat, w: World): Outcome
    requires i < |legs|
    decreases market, 3
  {
    var leg := legs[i];
    var amountIn := LegInput(c, legs, i, firstAmount, w);
    if amountIn == 0 then Fail(InvalidRoute)
    else
      var beforeOut := Bal(w.ledger, leg.tokenOut, c.self);
      match ForceApprove(c, market, leg.tokenIn, leg.adapter, amountIn, w)
      case Fail(e) => Fail(e)
      case Ok(w1, _) =>
        match RunSwap(c, market, SwapOf(c, leg, amountIn), w1)
        case Fail(e) => Fail(e)
        case Ok(w2, reported) =>
          match ForceApprove(c, market, leg.tokenIn, leg.adapter, 0, w2)
          case Fail(e) => Fail(e)
          case Ok(w3, _) =>
            var afterOut := Bal(w3.ledger, leg.tokenOut, c.self);
            if afterOut < beforeOut then Fail(ArithmeticPanic)
            else if afterOut - beforeOut < leg.minOut || reported != afterOut - beforeOut
                then Fail(SwapOutputMismatch(i))
            else Ok(w3, 1)
  }

  function ExecuteLegs(c: Chain, market: Market, legs: seq<Leg>, i: nat, firstAmount: nat, w: World): Outcome
    decreases market, 4, |legs| - i
  {
    if i >= |legs| then Ok(w, 1)
    else
      match RunLeg(c, market, legs, i, firstAmount, w)
      case Fail(e) => Fail(e)
      case Ok(w', _) => ExecuteLegs(c, market, legs, i + 1, firstAmount, w')
  }

  // ---- packed candidates ----

  function DoAttempt(
      c: Chain, sender: Address, candidate: Candidate, asset: Address, amount: nat, premium: nat, market: Market,
      w: World): Outcome
    decreases market, 5
  {
    if sender != c.self then Fail(Unauthorized)
    else if w.store.activeBatchHash == ZeroHash then Fail(InvalidPackedBatch)
    else if |candidate.legs| < 2 || |candidate.legs| > MAX_PACKED_LEGS then Fail(InvalidRoute)
    else if candidate.legs[0].tokenIn != asset || candidate.legs[|candidate.legs| - 1].tokenOut != asset
        then Fail(InvalidRoute)
    else
      var beforeBalance := Bal(w.ledger, asset, c.self);
      match ExecuteLegs(c, market, candidate.legs, 0, amount, w)
      case Fail(e) => Fail(e)
      case Ok(w', _) =>
        var endingBalance := Bal(w'.ledger, asset, c.self);
        if beforeBalance + premium + candidate.minProfit > MAX_UINT then Fail(ArithmeticPanic)
        else if endingBalance < beforeBalance + premium + candidate.minProfit then Fail(ProfitTooLow)
        else Ok(w', endingBalance)
  }

  /** The first candidate from the i-th on whose attempt succeeds; a failed attempt leaves no trace. */
  function TryCandidates(
      c: Chain, market: Market, cs: seq<Candidate>, i: nat, asset: Address, amount: nat, premium: nat, w: World)
    : Outcome
    decreases market, 6, |cs| - i
  {
    if i >= |cs| then Fail(NoCandidateSucceeded)
    else
      match DoAttempt(c, c.self, cs[i], asset, amount, premium, market, w)
      case Ok(w', _) =>
        Ok(w'.(store := w'.store.(activeSelectedCandidateId := cs[i].candidateId, activeSelectedCandidateIndex := i,
                                  activeSelectedMinProfit := cs[i].minProfit)), i)
      case Fail(_) => TryCandidates(c, market, cs, i + 1, asset, amount, premium, w)
  }

  /**
   The end of both callbacks: the balance must cover loan, premium and profit, then the pool may pull what is owed.
   */
  function Settle(c: Chain, market: Market, asset: Address, owed: nat, minProfit: nat, w: World): Outcome
    decreases market, 6
  {
    var required := w.store.activePreLoanBalance + owed + minProfit;
    if required > MAX_UINT then Fail(ArithmeticPanic)
    else if Bal(w.ledger, asset, c.self) < required then Fail(ProfitTooLow)
    else ForceApprove(c, market, asset, c.pool, owed, w)
  }

  function PackedCallback(
      c: Chain, market: Market, asset: Address, amount: nat, premium: nat, params: Params, w: World): Outcome
    decreases market, 7
  {
    if ParamsHash(params) != w.store.activeBatchHash then Fail(InvalidPackedBatch)
    else if !params.RawParams? || ParseBatch(params.raw).Failure? then Fail(InvalidPackedBatch)
    else
      var b := ParseBatch(params.raw).value;
      if asset != b.asset || amount != b.amount then Fail(InvalidPackedBatch)
      else if Stale(c, b.targetBlock, b.deadline) then Fail(StaleRoute)
      else if BatchError(w.store, b).Some? then Fail(BatchError(w.store, b).value)
      else
        match TryCandidates(c, market, b.candidates, 0, asset, amount, premium, w)
        case Fail(e) => Fail(e)
        case Ok(w1, index) =>
          if amount + premium > MAX_UINT then Fail(ArithmeticPanic)
          else
            Settle(c, market, asset, amount + premium, w1.store.activeSelectedMinProfit,
                w1.(store := w1.store.(activePremium := premium)))
  }

  function RouteCallback(
      c: Chain, market: Market, asset: Address, amount: nat, premium: nat, params: Params, w: World): Outcome
    decreases market, 7
  {
    if !params.EncodedRoute? then Fail(Undecodable)
    else
      var route := params.route;
      if w.store.activeRouteHash == ZeroHash || route.routeHash != w.store.activeRouteHash then Fail(InvalidRoute)
      else if asset != route.asset || amount != route.amount || RouteDigest(route) != route.routeHash
          then Fail(InvalidRoute)
      else if Stale(c, route.targetBlock, route.deadline) then Fail(StaleRoute)
      else if RouteError(w.store, route).Some? then Fail(RouteError(w.store, route).value)
      else
        match ExecuteLegs(c, market, route.legs, 0, amount, w)
        case Fail(e) => Fail(e)
        case Ok(w1, _) =>
          var owed := amount + premium;
          if owed > MAX_UINT || w1.store.activePreLoanBalance + owed + route.minProfit > MAX_UINT
              then Fail(ArithmeticPanic)
          else if Bal(w1.ledger, asset, c.self) < owed then Fail(InsufficientRepayment)
          else Settle(c, market, asset, owed, route.minProfit, w1.(store := w1.store.(activePremium := premium)))
  }

  function DoExecuteOperation(
      c: Chain, sender: Address, asset: Address, amount: nat, premium: nat, initiator: Address, params: Params,
      market: Market, w: World): Outcome
    decreases market, 8
  {
    if sender != c.pool || initiator != c.self then Fail(Unauthorized)
    else if w.store.callbackEntered then Fail(Reentrant)
    else
      var w1 := w.(store := w.store.(callbackEntered := true));
      var r := if w1.store.activeBatchHash != ZeroHash
          then PackedCallback(c, market, asset, amount, premium, params, w1)
               else RouteCallback(c, market, asset, amount, premium, params, w1);
      match r
      case Fail(e) => Fail(e)
      case Ok(w2, _) => Ok(w2.(store := w2.store.(callbackEntered := false)), 1)
  }

  // ---- the pool ----

  function Premium(amount: nat, premiumBps: nat): nat {
    (amount * premiumBps + 5000) / 10000
  }

  /** An honest flash loan: lend exactly `amount`, call back once as the pool, then pull exactly amount and premium. */
  function FlashLoan(
      c: Chain, premiumBps: nat, market: Market, asset: Address, amount: nat, params: Params, w: World): Outcome
    decreases market, 9
  {
    if amount * premiumBps + 5000 > MAX_UINT then Fail(OutsideRevert)
    else
      var premium := Premium(amount, premiumBps);
      match Transfer(w.ledger, asset, c.pool, c.self, amount)
      case None => Fail(OutsideRevert)
      case Some(lent) =>
        match DoExecuteOperation(c, c.pool, asset, amount, premium, c.self, params, market, w.(ledger := lent))
        case Fail(e) => Fail(e)
        case Ok(w', _) =>
          OnLedger(w', TransferFrom(w'.ledger, c.unlimited, asset, c.pool, c.self, c.pool, amount + premium))
  }

  function RunPool(c: Chain, pool: PoolCode, asset: Address, amount: nat, params: Params, w: World): Outcome
    decreases pool, 0
  {
    match pool
    case HonestPool(premiumBps, market) => FlashLoan(c, premiumBps, market, asset, amount, params, w)
    case AnyPool(body) => if c.honest then Fail(OutsideRevert) else RunTree(c, body, w)
  }

  // ---- start ----

  function StartError(c: Chain, sender: Address, route: Route, w: World): Option<Error> {
    if sender != w.store.owner then Some(Unauthorized)
    else if w.store.operationEntered then Some(Reentrant)
    else RouteChecks(c, route, w)
  }

  /** The checks that start makes once it holds the operation lock. */
  function RouteChecks(c: Chain, route: Route, w: World): Option<Error> {
    if w.store.paused then Some(Paused)
    else if w.store.activeRouteHash != ZeroHash || w.store.activeBatchHash != ZeroHash then Some(Reentrant)
    else if Stale(c, route.targetBlock, route.deadline) then Some(StaleRoute)
    else if RouteDigest(route) != route.routeHash then Some(InvalidRoute)
    else if route.routeHash in w.store.commitmentUsed then Some(CommitmentAlreadyUsed)
    else if RouteError(w.store, route).Some? then RouteError(w.store, route)
    else FirstDirty(w.ledger, c.self, route.asset, route.legs, 0)
  }

  function StartOpened(c: Chain, route: Route, w: World): World {
    w.(store := w.store.(operationEntered := true,
                         commitmentUsed := w.store.commitmentUsed + {route.routeHash},
                         activeRouteHash := route.routeHash,
                         activePreLoanBalance := Bal(w.ledger, route.asset, c.self)))
  }

  function StartClosed(c: Chain, route: Route, w: World): Outcome {
    var finalBalance := Bal(w.ledger, route.asset, c.self);
    var preBalance := w.store.activePreLoanBalance;
    if preBalance + route.minProfit > MAX_UINT then Fail(ArithmeticPanic)
    else if finalBalance < preBalance + route.minProfit then Fail(ProfitTooLow)
    else
      Ok(w.(store := w.store.(activeRouteHash := ZeroHash, activePreLoanBalance := 0, activePremium := 0,
          operationEntered := false),
            events := w.events + [RouteExecuted(route.routeHash, route.asset, route.amount, w.store.activePremium,
                finalBalance - preBalance)]), 0)
  }

  function DoStart(c: Chain, sender: Address, route: Route, pool: PoolCode, w: World): Outcome
    decreases pool, 1
  {
    if StartError(c, sender, route, w).Some? then Fail(StartError(c, sender, route, w).value)
    else
      match RunPool(c, pool, route.asset, route.amount, EncodedRoute(route), StartOpened(c, route, w))
      case Fail(e) => Fail(e)
      case Ok(w', _) => StartClosed(c, route, w')
  }

  function StartPackedError(c: Chain, sender: Address, packed: seq<Byte>, w: World): Option<Error> {
    if sender != w.store.owner then Some(Unauthorized)
    else if w.store.operationEntered then Some(Reentrant)
    else PackedChecks(c, packed, w)
  }

  /** The checks that startPacked makes once it holds the operation lock. */
  function PackedChecks(c: Chain, packed: seq<Byte>, w: World): Option<Error> {
    if w.store.paused then Some(Paused)
    else if w.store.activeRouteHash != ZeroHash || w.store.activeBatchHash != ZeroHash then Some(Reentrant)
    else if ParseBatch(packed).Failure? then Some(InvalidPackedBatch)
    else
      var b := ParseBatch(packed).value;
      if Stale(c, b.targetBlock, b.deadline) then Some(StaleRoute)
      else if BatchError(w.store, b).Some? then BatchError(w.store, b)
      else if FirstDirtyCandidate(w.ledger, c.self, b.asset, b.candidates, 0).Some?
      then FirstDirtyCandidate(w.ledger, c.self, b.asset, b.candidates, 0)
      else if ParamsHash(RawParams(packed)) in w.store.commitmentUsed then Some(CommitmentAlreadyUsed)
      else None
  }

  function PackedOpened(c: Chain, packed: seq<Byte>, asset: Address, w: World): World {
    var batchHash := ParamsHash(RawParams(packed));
    w.(store := w.store.(operationEntered := true,
                         commitmentUsed := w.store.commitmentUsed + {batchHash},
                         activeBatchHash := batchHash,
                         activePreLoanBalance := Bal(w.ledger, asset, c.self),
                         activeSelectedCandidateId := 0,
                         activeSelectedCandidateIndex := 0,
                         activeSelectedMinProfit := 0))
  }

  function PackedClosed(c: Chain, batchHash: Hash, asset: Address, amount: nat, w: World): Outcome {
    var finalBalance := Bal(w.ledger, asset, c.self);
    var s := w.store;
    if s.activeSelectedCandidateId == 0 then Fail(NoCandidateSucceeded)
    else if s.activePreLoanBalance + s.activeSelectedMinProfit > MAX_UINT then Fail(ArithmeticPanic)
    else if finalBalance < s.activePreLoanBalance + s.activeSelectedMinProfit then Fail(ProfitTooLow)
    else
      Ok(w.(store := s.(activeBatchHash := ZeroHash, activePreLoanBalance := 0, activePremium := 0,
          activeSelectedCandidateId := 0,
                        activeSelectedCandidateIndex := 0, activeSelectedMinProfit := 0, operationEntered := false),
            events := w.events + [PackedRouteExecuted(batchHash, s.activeSelectedCandidateId,
                s.activeSelectedCandidateIndex, asset, amount,
                                                      s.activePremium, finalBalance - s.activePreLoanBalance)]), 0)
  }

  function DoStartPacked(c: Chain, sender: Address, packed: seq<Byte>, pool: PoolCode, w: World): Outcome
    decreases pool, 1
  {
    if StartPackedError(c, sender, packed, w).Some? then Fail(StartPackedError(c, sender, packed, w).value)
    else
      var b := ParseBatch(packed).value;
      match RunPool(c, pool, b.asset, b.amount, RawParams(packed), PackedOpened(c, packed, b.asset, w))
      case Fail(e) => Fail(e)
      case Ok(w', _) => PackedClosed(c, ParamsHash(RawParams(packed)), b.asset, b.amount, w')
  }

  // ---- runs of transactions ----

  /** A transaction: the block it lands in and what its sender does. A transaction that fails changes nothing. */
  datatype Tx = Tx(number: nat, timestamp: nat, act: Act)

  function At(c: Chain, tx: Tx): Chain {
    c.(number := tx.number, timestamp := tx.timestamp)
  }

  function Commit(c: Chain, tx: Tx, w: World): World {
    match RunAct(At(c, tx), tx.act, w)
    case Ok(w', _) => w'
    case Fail(_) => w
  }

  function Run(c: Chain, txs: seq<Tx>, w: World): World {
    if txs == [] then w else Commit(c, txs[|txs| - 1], Run(c, txs[..|txs| - 1], w))
  }
}
