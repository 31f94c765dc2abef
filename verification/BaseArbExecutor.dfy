/**
 The contract in its own form: storage fields set and cleared step by step, loops over legs and
 candidates, and a rollback of everything at each boundary where a call may revert. Every method
 is proved to do what the state machine of ExecutorModel does.
 */
module BaseArbExecutorContract {
  import opened Bytes
  import opened PackedFormat
  import opened TokenLedger
  import opened Commitment
  import opened ExecutorModel
  import Sol = SolidityDecoder

  datatype Status = Returned(value: nat) | Reverted(error: Error)

  /** The method returned, or reverted, as the specification says, and if it returned it left the specified world. */
  predicate Agrees(spec: Outcome, r: Status, w: World) {
    match spec
    case Ok(w', value) => r == Returned(value) && w == w'
    case Fail(e) => r == Reverted(e)
  }

  // ---- validation reads only the allow-lists ----

  lemma {:induction false} FirstLegErrorSame(s: Store, s': Store, legs: seq<Leg>, i: nat)
    requires s.adapterAllowed == s'.adapterAllowed && s.tokenAllowed == s'.tokenAllowed
    ensures FirstLegError(s, legs, i) == FirstLegError(s', legs, i)
    decreases |legs| - i
  {
    if i < |legs| {
      FirstLegErrorSame(s, s', legs, i + 1);
    }
  }

  lemma RouteErrorSame(s: Store, s': Store, r: Route)
    requires s.adapterAllowed == s'.adapterAllowed && s.tokenAllowed == s'.tokenAllowed
    ensures RouteError(s, r) == RouteError(s', r)
  {
    hide FirstLegError;
    FirstLegErrorSame(s, s', r.legs, 0);
  }

  lemma {:induction false} FirstLinkErrorSame(s: Store, s': Store, legs: seq<Leg>, i: nat)
    requires s.adapterAllowed == s'.adapterAllowed && s.tokenAllowed == s'.tokenAllowed
    ensures FirstLinkError(s, legs, i) == FirstLinkError(s', legs, i)
    decreases |legs| - i
  {
    if i < |legs| {
      FirstLinkErrorSame(s, s', legs, i + 1);
    }
  }

  lemma {:induction false} FirstCandidateErrorSame(s: Store, s': Store, asset: Address, cs: seq<Candidate>, i: nat)
    requires s.adapterAllowed == s'.adapterAllowed && s.tokenAllowed == s'.tokenAllowed
    ensures FirstCandidateError(s, asset, cs, i) == FirstCandidateError(s', asset, cs, i)
    decreases |cs| - i
  {
    hide FirstLinkError;
    if i < |cs| {
      FirstLinkErrorSame(s, s', cs[i].legs, 0);
      FirstCandidateErrorSame(s, s', asset, cs, i + 1);
    }
  }

  lemma BatchErrorSame(s: Store, s': Store, b: Batch)
    requires s.adapterAllowed == s'.adapterAllowed && s.tokenAllowed == s'.tokenAllowed
    ensures BatchError(s, b) == BatchError(s', b)
  {
    hide FirstCandidateError;
    FirstCandidateErrorSame(s, s', b.asset, b.candidates, 0);
  }

  /** The checks give the same answer before and after the operation lock is taken. */
  lemma LockDoesNotMatter(c: Chain, route: Route, w: World, w': World)
    requires w' == w.(store := w.store.(operationEntered := true))
    ensures RouteChecks(c, route, w) == RouteChecks(c, route, w')
  {
    hide RouteError, FirstDirty, RouteDigest;
    RouteErrorSame(w.store, w'.store, route);
  }

  lemma LockDoesNotMatterPacked(c: Chain, packed: seq<Byte>, w: World, w': World)
    requires w' == w.(store := w.store.(operationEntered := true))
    ensures PackedChecks(c, packed, w) == PackedChecks(c, packed, w')
  {
    hide BatchError, FirstDirtyCandidate, ParseBatch;
    if ParseBatch(packed).Success? {
      BatchErrorSame(w.store, w'.store, ParseBatch(packed).value);
    }
  }

  class BaseArbExecutor {
    // storage
    var owner: Address
    var pendingOwner: Address
    var adapterAllowed: set<Address>
    var tokenAllowed: set<Address>
    var commitmentUsed: set<Hash>
    var paused: bool
    var activeRouteHash: Hash
    var activeBatchHash: Hash
    var activePreLoanBalance: nat
    var activePremium: nat
    var activeSelectedCandidateId: nat
    var activeSelectedCandidateIndex: nat
    var activeSelectedMinProfit: nat
    var callbackEntered: bool
    var operationEntered: bool

    // the rest of the chain, the event log, and the history of sweeps
    var ledger: Ledger
    var events: seq<Event>
    var swept: map<Address, nat>

    function Storage(): Store
      reads this
    {
      Store(owner, pendingOwner, adapterAllowed, tokenAllowed, commitmentUsed, paused, activeRouteHash, activeBatchHash,
            activePreLoanBalance, activePremium, activeSelectedCandidateId, activeSelectedCandidateIndex,
                activeSelectedMinProfit,
            callbackEntered, operationEntered)
    }

    function State(): World
      reads this
    {
      World(ledger, Storage(), events, swept)
    }

    constructor (deployer: Address, chainLedger: Ledger)
      ensures State() == World(chainLedger, DeployedStore(deployer), [], map[])
    {
      owner, pendingOwner := deployer, 0;
      adapterAllowed, tokenAllowed, commitmentUsed := {}, {}, {};
      paused := true;
      activeRouteHash, activeBatchHash := ZeroHash, ZeroHash;
      activePreLoanBalance, activePremium := 0, 0;
      activeSelectedCandidateId, activeSelectedCandidateIndex, activeSelectedMinProfit := 0, 0, 0;
      callbackEntered, operationEntered := false, false;
      ledger, events, swept := chainLedger, [], map[];
    }

    /** What a revert does to the frame it ends: everything is as it was at the snapshot. */
    method RollBack(w: World)
      modifies this
      ensures State() == w
    {
      RollBackSettings(w.store);
      RollBackOperation(w.store);
      ledger, events, swept := w.ledger, w.events, w.swept;
    }

    method RollBackSettings(s: Store)
      modifies this`owner, this`pendingOwner, this`adapterAllowed, this`tokenAllowed, this`commitmentUsed, this`paused
      ensures owner == s.owner && pendingOwner == s.pendingOwner && adapterAllowed == s.adapterAllowed
      ensures tokenAllowed == s.tokenAllowed && commitmentUsed == s.commitmentUsed && paused == s.paused
    {
      owner, pendingOwner, adapterAllowed, tokenAllowed := s.owner, s.pendingOwner, s.adapterAllowed, s.tokenAllowed;
      commitmentUsed, paused := s.commitmentUsed, s.paused;
    }

    method RollBackOperation(s: Store)
      modifies this`activeRouteHash, this`activeBatchHash, this`activePreLoanBalance, this`activePremium,
               this`activeSelectedCandidateId, this`activeSelectedCandidateIndex, this`activeSelectedMinProfit,
               this`callbackEntered, this`operationEntered
      ensures activeRouteHash == s.activeRouteHash && activeBatchHash == s.activeBatchHash
      ensures activePreLoanBalance == s.activePreLoanBalance && activePremium == s.activePremium
      ensures activeSelectedCandidateId == s.activeSelectedCandidateId
      ensures activeSelectedCandidateIndex == s.activeSelectedCandidateIndex
      ensures activeSelectedMinProfit == s.activeSelectedMinProfit
      ensures callbackEntered == s.callbackEntered && operationEntered == s.operationEntered
    {
      activeRouteHash, activeBatchHash := s.activeRouteHash, s.activeBatchHash;
      activePreLoanBalance, activePremium := s.activePreLoanBalance, s.activePremium;
      activeSelectedCandidateId := s.activeSelectedCandidateId;
      activeSelectedCandidateIndex := s.activeSelectedCandidateIndex;
      activeSelectedMinProfit := s.activeSelectedMinProfit;
      callbackEntered, operationEntered := s.callbackEntered, s.operationEntered;
    }

    // ---- outside code ----

    method RunOutside(c: Chain, tree: Tree) returns (r: Status)
      modifies this
      ensures Agrees(RunTree(c, tree, old(State())), r, State())
      decreases tree
    {
      var t := tree;
      while t.Then? || t.Look?
        invariant t == tree || t < tree
        invariant RunTree(c, tree, old(State())) == RunTree(c, t, State())
        decreases t
      {
        if t.Look? {
          t := if Answer(Storage(), t.view) then t.yes else t.no;
          continue;
        }
        r := Perform(c, t.act);
        if r.Reverted? { return; }
        t := t.rest;
      }
      return if t.Done? then Returned(t.value) else Reverted(OutsideRevert);
    }

    method Perform(c: Chain, act: Act) returns (r: Status)
      modifies this
      ensures Agrees(RunAct(c, act, old(State())), r, State())
      decreases act
    {
      hide Transfer, TransferFrom, Mint, Approve, Call;
      if !Possible(c, act) { return Reverted(OutsideRevert); }
      match act {
        case TransferBy(actor, token, to, amount) => r := ApplyToLedger(Transfer(ledger, token, actor, to, amount));
        case PullBy(actor, token, from, to, amount) =>
          r := ApplyToLedger(TransferFrom(ledger, c.unlimited, token, actor, from, to, amount));
        case ApproveBy(actor, token, spender, amount) =>
          r := ApplyToLedger(Some(Approve(ledger, token, actor, spender, amount)));
        case Issue(token, to, amount) => r := ApplyToLedger(Mint(ledger, token, to, amount));
        case Touch(key, data) => r := ApplyToLedger(Some(ledger.(dex := ledger.dex[key := data])));
        case Forge(l) => r := ApplyToLedger(Some(l));
        case Attempt(body) =>
          var snapshot := State();
          r := RunOutside(c, body);
          if r.Reverted? {
            RollBack(snapshot);
            r := Returned(0);
          } else {
            r := Returned(1);
          }
        case Enter(sender, entry) => r := MessageCall(c, sender, entry);
      }
    }

    method ApplyToLedger(l: Option<Ledger>) returns (r: Status)
      modifies this`ledger
      ensures Agrees(OnLedger(old(State()), l), r, State())
    {
      if l.None? { return Reverted(OutsideRevert); }
      ledger := l.value;
      return Returned(1);
    }

    // ---- message calls ----

    /** A message call to the contract; if it reverts, nothing has happened. */
    method MessageCall(c: Chain, sender: Address, entry: Entry) returns (r: Status)
      modifies this
      ensures Agrees(Call(c, sender, entry, old(State())), r, State())
      ensures r.Reverted? ==> State() == old(State())
      decreases entry
    {
      hide DoStart, DoStartPacked, DoExecuteOperation, DoAttempt, DoSweep;
      var snapshot := State();
      match entry {
        case SetAdapter(adapter, allowed) => r := CallSetAdapter(sender, adapter, allowed);
        case SetToken(token, allowed) => r := CallSetToken(sender, token, allowed);
        case SetPaused(value) => r := CallSetPaused(sender, value);
        case TransferOwnership(next) => r := CallTransferOwnership(c, sender, next);
        case AcceptOwnership => r := CallAcceptOwnership(c, sender);
        case Start(route, pool) => r := CallStart(c, sender, route, pool);
        case StartPacked(packed, pool) => r := CallStartPacked(c, sender, packed, pool);
        case ExecuteOperation(asset, amount, premium, initiator, params, market) =>
          r := CallExecuteOperation(c, sender, asset, amount, premium, initiator, params, market);
        case AttemptPackedCandidate(candidate, asset, amount, premium, market) =>
          r := CallAttempt(c, sender, candidate, asset, amount, premium, market);
        case Sweep(token, to, amount, market) => r := CallSweep(c, sender, token, to, amount, market);
      }
      if r.Reverted? { RollBack(snapshot); }
    }

    /** onlyOwner and onlyIdle. */
    method OwnerWhileIdle(sender: Address) returns (r: Option<Error>)
      ensures r == if sender != owner then Some(Unauthorized) else if !Idle(Storage()) then Some(Reentrant) else None
    {
      if sender != owner { return Some(Unauthorized); }
      if operationEntered || callbackEntered || activeRouteHash != ZeroHash || activeBatchHash != ZeroHash {
        return Some(Reentrant);
      }
      return None;
    }

    method CallSetAdapter(sender: Address, adapter: Address, allowed: bool) returns (r: Status)
      modifies this`adapterAllowed
      ensures var w := old(State());
              Agrees(Administer(sender, w, w.store.(adapterAllowed := Allow(w.store.adapterAllowed, adapter,
                  allowed))), r, State())
    {
      var error := OwnerWhileIdle(sender);
      if error.Some? { return Reverted(error.value); }
      adapterAllowed := if allowed then adapterAllowed + {adapter} else adapterAllowed - {adapter};
      return Returned(0);
    }

    method CallSetToken(sender: Address, token: Address, allowed: bool) returns (r: Status)
      modifies this`tokenAllowed
      ensures var w := old(State());
              Agrees(Administer(sender, w, w.store.(tokenAllowed := Allow(w.store.tokenAllowed, token, allowed))), r,
                  State())
    {
      var error := OwnerWhileIdle(sender);
      if error.Some? { return Reverted(error.value); }
      tokenAllowed := if allowed then tokenAllowed + {token} else tokenAllowed - {token};
      return Returned(0);
    }

    method CallSetPaused(sender: Address, value: bool) returns (r: Status)
      modifies this`paused
      ensures var w := old(State());
              Agrees(Administer(sender, w, w.store.(paused := value)), r, State())
    {
      var error := OwnerWhileIdle(sender);
      if error.Some? { return Reverted(error.value); }
      paused := value;
      return Returned(0);
    }

    method CallTransferOwnership(c: Chain, sender: Address, next: Address) returns (r: Status)
      modifies this`pendingOwner
      ensures Agrees(Call(c, sender, TransferOwnership(next), old(State())), r, State())
    {
      var error := OwnerWhileIdle(sender);
      if error.Some? { return Reverted(error.value); }
      if next == 0 { return Reverted(Unauthorized); }
      pendingOwner := next;
      return Returned(0);
    }

    method CallAcceptOwnership(c: Chain, sender: Address) returns (r: Status)
      modifies this`owner, this`pendingOwner
      ensures Agrees(Call(c, sender, AcceptOwnership, old(State())), r, State())
    {
      if operationEntered || callbackEntered || activeRouteHash != ZeroHash || activeBatchHash != ZeroHash {
        return Reverted(Reentrant);
      }
      if sender != pendingOwner { return Reverted(Unauthorized); }
      owner := sender;
      pendingOwner := 0;
      return Returned(0);
    }

    method CallSweep(
        c: Chain, sender: Address, token: Address, to: Address, amount: nat, market: Market)
      returns (r: Status)
      modifies this
      ensures Agrees(DoSweep(c, sender, token, to, amount, market, old(State())), r, State())
      decreases market, 6
    {
      hide Transfer, TokenHook;
      var error := OwnerWhileIdle(sender);
      if error.Some? { return Reverted(error.value); }
      var moved := Transfer(ledger, token, c.self, to, amount);
      if moved.None? { return Reverted(TokenCallFailed(token)); }
      swept := swept[token := (if token in swept then swept[token] else 0) + amount];
      ledger := moved.value;
      r := AfterTokenCall(c, market, TransferCall(token, to, amount), token);
    }

    // ---- token calls by the contract ----

    method AfterTokenCall(c: Chain, market: Market, call: TokenCall, token: Address) returns (r: Status)
      modifies this
      ensures Agrees(TokenHook(c, market, call, token, old(State())), r, State())
      decreases market, 0
    {
      hide RunTree;
      if c.honest || (ledger, call) !in market.hooks { return Returned(1); }
      r := RunOutside(c, market.hooks[(ledger, call)]);
      if r.Reverted? || r.value == 0 { return Reverted(TokenCallFailed(token)); }
      return Returned(1);
    }

    method ApproveCallOnce(c: Chain, market: Market, token: Address, spender: Address, amount: nat) returns (r: Status)
      modifies this
      ensures Agrees(ApproveOnce(c, market, token, spender, amount, old(State())), r, State())
      decreases market, 1
    {
      hide Approve, TokenHook;
      ledger := Approve(ledger, token, c.self, spender, amount);
      r := AfterTokenCall(c, market, ApproveCall(token, spender, amount), token);
    }

    method ForceApproveCall(c: Chain, market: Market, token: Address, spender: Address, amount: nat) returns (r: Status)
      modifies this
      ensures Agrees(ForceApprove(c, market, token, spender, amount, old(State())), r, State())
      decreases market, 2
    {
      hide ApproveOnce;
      r := ApproveCallOnce(c, market, token, spender, 0);
      if r.Reverted? { return; }
      if amount != 0 {
        r := ApproveCallOnce(c, market, token, spender, amount);
      } else {
        r := Returned(1);
      }
    }

    // ---- legs ----

    method SwapLeg(c: Chain, market: Market, call: SwapCall) returns (r: Status)
      modifies this
      ensures Agrees(RunSwap(c, market, call, old(State())), r, State())
      decreases market, 0
    {
      hide RunTree;
      if (ledger, call) !in market.swaps { return Reverted(OutsideRevert); }
      r := RunOutside(c, market.swaps[(ledger, call)]);
    }

    method ExecuteOneLeg(c: Chain, market: Market, legs: seq<Leg>, i: nat, firstAmount: nat) returns (r: Status)
      requires i < |legs|
      modifies this
      ensures Agrees(RunLeg(c, market, legs, i, firstAmount, old(State())), r, State())
      decreases market, 3
    {
      hide ForceApprove, RunSwap, Bal;
      var leg := legs[i];
      var amountIn := if i == 0 then firstAmount else Bal(ledger, leg.tokenIn, c.self);
      if amountIn == 0 { return Reverted(InvalidRoute); }
      var beforeOut := Bal(ledger, leg.tokenOut, c.self);
      r := ForceApproveCall(c, market, leg.tokenIn, leg.adapter, amountIn);
      if r.Reverted? { return; }
      r := SwapLeg(c, market, SwapCall(leg.adapter, leg.tokenIn, leg.tokenOut, amountIn, leg.minOut, c.self, leg.data));
      if r.Reverted? { return; }
      var reported := r.value;
      r := ForceApproveCall(c, market, leg.tokenIn, leg.adapter, 0);
      if r.Reverted? { return; }
      var afterOut := Bal(ledger, leg.tokenOut, c.self);
      if afterOut < beforeOut { return Reverted(ArithmeticPanic); }
      var delta := afterOut - beforeOut;
      if delta < leg.minOut || reported != delta { return Reverted(SwapOutputMismatch(i)); }
      return Returned(1);
    }

    /** _executeLegs and _executeLegsCalldata. */
    method ExecuteAllLegs(c: Chain, market: Market, legs: seq<Leg>, firstAmount: nat) returns (r: Status)
      modifies this
      ensures Agrees(ExecuteLegs(c, market, legs, 0, firstAmount, old(State())), r, State())
      decreases market, 4
    {
      hide RunLeg;
      var i := 0;
      while i < |legs|
        invariant 0 <= i <= |legs|
        invariant ExecuteLegs(c, market, legs, 0, firstAmount, old(State()))
                  == ExecuteLegs(c, market, legs, i, firstAmount, State())
      {
        r := ExecuteOneLeg(c, market, legs, i, firstAmount);
        if r.Reverted? { return; }
        i := i + 1;
      }
      return Returned(1);
    }

    // ---- validation and cleanliness ----

    method ValidateLeg(leg: Leg) returns (r: Option<Error>)
      ensures r == LegError(Storage(), leg)
    {
      if leg.adapter !in adapterAllowed || leg.tokenIn !in tokenAllowed || leg.tokenOut !in tokenAllowed {
        return Some(Unauthorized);
      }
      if leg.tokenIn == leg.tokenOut { return Some(InvalidRoute); }
      return None;
    }

    /** _validateRoute and _validateRouteMemory. */
    method ValidateRoute(route: Route) returns (r: Option<Error>)
      ensures r == RouteError(Storage(), route)
    {
      hide LegError;
      if route.asset == 0 || route.amount == 0 || |route.legs| < 2 { return Some(InvalidRoute); }
      if route.asset !in tokenAllowed { return Some(Unauthorized); }
      if route.legs[0].tokenIn != route.asset || route.legs[|route.legs| - 1].tokenOut != route.asset {
        return Some(InvalidRoute);
      }
      for i := 0 to |route.legs|
        invariant FirstLegError(Storage(), route.legs, 0) == FirstLegError(Storage(), route.legs, i)
      {
        r := ValidateLeg(route.legs[i]);
        if r.Some? { return; }
      }
      for i := 0 to |route.legs| - 1
        invariant FirstLegError(Storage(), route.legs, 0).None?
        invariant forall k :: 0 <= k < i ==> route.legs[k].tokenOut == route.legs[k + 1].tokenIn
      {
        if route.legs[i].tokenOut != route.legs[i + 1].tokenIn { return Some(InvalidRoute); }
      }
      return None;
    }

    method ValidateCandidate(asset: Address, candidate: Candidate) returns (r: Option<Error>)
      ensures r == CandidateError(Storage(), asset, candidate)
    {
      hide LegError;
      var legs := candidate.legs;
      if candidate.candidateId == 0 || |legs| < 2 || |legs| > MAX_PACKED_LEGS { return Some(InvalidRoute); }
      if legs[0].tokenIn != asset || legs[|legs| - 1].tokenOut != asset { return Some(InvalidRoute); }
      for i := 0 to |legs|
        invariant FirstLinkError(Storage(), legs, 0) == FirstLinkError(Storage(), legs, i)
      {
        r := ValidateLeg(legs[i]);
        if r.Some? { return; }
        if i + 1 < |legs| && legs[i].tokenOut != legs[i + 1].tokenIn { return Some(InvalidRoute); }
      }
      return None;
    }

    /** _validatePacked. */
    method ValidatePacked(b: Batch) returns (r: Option<Error>)
      ensures r == BatchError(Storage(), b)
    {
      hide CandidateError;
      if b.asset == 0 || b.amount == 0 || |b.candidates| == 0 || |b.candidates| > MAX_PACKED_CANDIDATES {
        return Some(InvalidPackedBatch);
      }
      if b.asset !in tokenAllowed { return Some(Unauthorized); }
      for i := 0 to |b.candidates|
        invariant FirstCandidateError(Storage(), b.asset, b.candidates, 0)
                  == FirstCandidateError(Storage(), b.asset, b.candidates, i)
      {
        r := ValidateCandidate(b.asset, b.candidates[i]);
        if r.Some? { return; }
      }
      return None;
    }

    /** _requireCleanIntermediates. */
    method RequireCleanIntermediates(c: Chain, asset: Address, legs: seq<Leg>) returns (r: Option<Error>)
      ensures r == FirstDirty(ledger, c.self, asset, legs, 0)
    {
      hide Bal;
      var i := 0;
      while i + 1 < |legs|
        invariant FirstDirty(ledger, c.self, asset, legs, 0) == FirstDirty(ledger, c.self, asset, legs, i)
      {
        var token := legs[i].tokenOut;
        if token != asset {
          var balance := Bal(ledger, token, c.self);
          if balance != 0 { return Some(DirtyIntermediateBalance(token, balance)); }
        }
        i := i + 1;
      }
      return None;
    }

    /** _requireCleanPackedIntermediates. */
    method RequireCleanPackedIntermediates(c: Chain, asset: Address, cs: seq<Candidate>) returns (r: Option<Error>)
      ensures r == FirstDirtyCandidate(ledger, c.self, asset, cs, 0)
    {
      hide Bal, FirstDirty;
      for i := 0 to |cs|
        invariant FirstDirtyCandidate(ledger, c.self, asset, cs, 0) == FirstDirtyCandidate(ledger, c.self, asset, cs, i)
      {
        r := RequireCleanIntermediates(c, asset, cs[i].legs);
        if r.Some? { return; }
      }
      return None;
    }

    // ---- callbacks ----

    method CallAttempt(
        c: Chain, sender: Address, candidate: Candidate, asset: Address, amount: nat, premium: nat, market: Market)
      returns (r: Status)
      modifies this
      ensures Agrees(DoAttempt(c, sender, candidate, asset, amount, premium, market, old(State())), r, State())
      decreases market, 5
    {
      hide ExecuteLegs, Bal;
      if sender != c.self { return Reverted(Unauthorized); }
      if activeBatchHash == ZeroHash { return Reverted(InvalidPackedBatch); }
      if |candidate.legs| < 2 || |candidate.legs| > MAX_PACKED_LEGS { return Reverted(InvalidRoute); }
      if candidate.legs[0].tokenIn != asset || candidate.legs[|candidate.legs| - 1].tokenOut != asset {
        return Reverted(InvalidRoute);
      }
      var beforeBalance := Bal(ledger, asset, c.self);
      r := ExecuteAllLegs(c, market, candidate.legs, amount);
      if r.Reverted? { return; }
      var endingBalance := Bal(ledger, asset, c.self);
      var required := beforeBalance + premium + candidate.minProfit;
      if required > MAX_UINT { return Reverted(ArithmeticPanic); }
      if endingBalance < required { return Reverted(ProfitTooLow); }
      return Returned(endingBalance);
    }

    /** The fallback loop: each attempt is a call of its own, rolled back if it reverts. */
    method TryMenu(
        c: Chain, market: Market, cs: seq<Candidate>, asset: Address, amount: nat, premium: nat)
      returns (r: Status)
      modifies this
      ensures Agrees(TryCandidates(c, market, cs, 0, asset, amount, premium, old(State())), r, State())
      decreases market, 6
    {
      hide DoAttempt;
      var i := 0;
      while i < |cs|
        invariant 0 <= i <= |cs|
        invariant State() == old(State())
        invariant TryCandidates(c, market, cs, 0, asset, amount, premium, old(State()))
               == TryCandidates(c, market, cs, i, asset, amount, premium, State())
      {
        var snapshot := State();
        r := CallAttempt(c, c.self, cs[i], asset, amount, premium, market);
        if r.Returned? {
          activeSelectedCandidateId := cs[i].candidateId;
          activeSelectedCandidateIndex := i;
          activeSelectedMinProfit := cs[i].minProfit;
          return Returned(i);
        }
        RollBack(snapshot);
        i := i + 1;
      }
      return Reverted(NoCandidateSucceeded);
    }

    method SettleWithPool(c: Chain, market: Market, asset: Address, owed: nat, minProfit: nat) returns (r: Status)
      modifies this
      ensures Agrees(Settle(c, market, asset, owed, minProfit, old(State())), r, State())
      decreases market, 6
    {
      hide ForceApprove, Bal;
      var required := activePreLoanBalance + owed + minProfit;
      if required > MAX_UINT { return Reverted(ArithmeticPanic); }
      if Bal(ledger, asset, c.self) < required { return Reverted(ProfitTooLow); }
      r := ForceApproveCall(c, market, asset, c.pool, owed);
    }

    /** _executePackedCallback. */
    method ExecutePackedCallback(
        c: Chain, market: Market, asset: Address, amount: nat, premium: nat, params: Params)
      returns (r: Status)
      modifies this
      ensures Agrees(PackedCallback(c, market, asset, amount, premium, params, old(State())), r, State())
      decreases market, 7
    {
      hide TryCandidates, Settle, BatchError, ParseBatch;
      if ParamsHash(params) != activeBatchHash { return Reverted(InvalidPackedBatch); }
      if params.EncodedRoute? { return Reverted(InvalidPackedBatch); }
      var decoded := Sol.DecodePacked(params.raw);
      if decoded.Failure? { return Reverted(InvalidPackedBatch); }
      var b := decoded.value;
      if asset != b.asset || amount != b.amount { return Reverted(InvalidPackedBatch); }
      if c.number > b.targetBlock || c.timestamp > b.deadline { return Reverted(StaleRoute); }
      var invalid := ValidatePacked(b);
      if invalid.Some? { return Reverted(invalid.value); }
      r := TryMenu(c, market, b.candidates, asset, amount, premium);
      if r.Reverted? { return; }
      activePremium := premium;
      var owed := amount + premium;
      if owed > MAX_UINT { return Reverted(ArithmeticPanic); }
      r := SettleWithPool(c, market, asset, owed, activeSelectedMinProfit);
    }

    method ExecuteRouteCallback(
        c: Chain, market: Market, asset: Address, amount: nat, premium: nat, params: Params)
      returns (r: Status)
      modifies this
      ensures Agrees(RouteCallback(c, market, asset, amount, premium, params, old(State())), r, State())
      decreases market, 7
    {
      hide ExecuteLegs, Settle, RouteError, RouteDigest, Bal;
      if params.RawParams? { return Reverted(Undecodable); }
      var route := params.route;
      if activeRouteHash == ZeroHash || route.routeHash != activeRouteHash { return Reverted(InvalidRoute); }
      var digest := HashRoute(route);
      if asset != route.asset || amount != route.amount || digest != route.routeHash { return Reverted(InvalidRoute); }
      if c.number > route.targetBlock || c.timestamp > route.deadline { return Reverted(StaleRoute); }
      var invalid := ValidateRoute(route);
      if invalid.Some? { return Reverted(invalid.value); }
      r := ExecuteAllLegs(c, market, route.legs, amount);
      if r.Reverted? { return; }
      activePremium := premium;
      var afterBalance := Bal(ledger, asset, c.self);
      var owed := amount + premium;
      if owed > MAX_UINT || activePreLoanBalance + owed + route.minProfit > MAX_UINT {
        return Reverted(ArithmeticPanic);
      }
      if afterBalance < owed { return Reverted(InsufficientRepayment); }
      r := SettleWithPool(c, market, asset, owed, route.minProfit);
    }

    /** executeOperation. */
    method CallExecuteOperation(
        c: Chain, sender: Address, asset: Address, amount: nat, premium: nat, initiator: Address, params: Params,
        market: Market)
      returns (r: Status)
      modifies this
      ensures Agrees(DoExecuteOperation(c, sender, asset, amount, premium, initiator, params, market, old(State())),
              r, State())
      decreases market, 8
    {
      hide PackedCallback, RouteCallback;
      if sender != c.pool || initiator != c.self { return Reverted(Unauthorized); }
      if callbackEntered { return Reverted(Reentrant); }
      callbackEntered := true;
      if activeBatchHash != ZeroHash {
        r := ExecutePackedCallback(c, market, asset, amount, premium, params);
      } else {
        r := ExecuteRouteCallback(c, market, asset, amount, premium, params);
      }
      if r.Reverted? { return; }
      callbackEntered := false;
      return Returned(1);
    }

    // ---- the pool, as called by the contract ----

    method FlashLoanSimple(
        c: Chain, premiumBps: nat, market: Market, asset: Address, amount: nat, params: Params)
      returns (r: Status)
      modifies this
      ensures Agrees(FlashLoan(c, premiumBps, market, asset, amount, params, old(State())), r, State())
      decreases market, 9
    {
      hide DoExecuteOperation, Transfer, TransferFrom;
      if amount * premiumBps + 5000 > MAX_UINT { return Reverted(OutsideRevert); }
      var premium := (amount * premiumBps + 5000) / 10000;
      r := ApplyToLedger(Transfer(ledger, asset, c.pool, c.self, amount));
      if r.Reverted? { return; }
      r := CallExecuteOperation(c, c.pool, asset, amount, premium, c.self, params, market);
      if r.Reverted? { return; }
      r := ApplyToLedger(TransferFrom(ledger, c.unlimited, asset, c.pool, c.self, c.pool, amount + premium));
    }

    method CallPool(c: Chain, pool: PoolCode, asset: Address, amount: nat, params: Params) returns (r: Status)
      modifies this
      ensures Agrees(RunPool(c, pool, asset, amount, params, old(State())), r, State())
      decreases pool, 0
    {
      hide FlashLoan, RunTree;
      match pool {
        case HonestPool(premiumBps, market) => r := FlashLoanSimple(c, premiumBps, market, asset, amount, params);
        case AnyPool(body) =>
          if c.honest { return Reverted(OutsideRevert); }
          r := RunOutside(c, body);
      }
    }

    // ---- start and startPacked ----

    /** The checked comparison of the final balance with what was promised. */
    static function TooLittle(finalBalance: nat, preBalance: nat, minProfit: nat): Option<Error> {
      if preBalance + minProfit > MAX_UINT then Some(ArithmeticPanic)
      else if finalBalance < preBalance + minProfit then Some(ProfitTooLow)
      else None
    }

    /** start after the loan: clear the operation, then check the profit. */
    method FinishStart(c: Chain, route: Route) returns (r: Status)
      modifies this
      ensures Agrees(StartClosed(c, route, old(State())), r, State())
    {
      hide Bal;
      var finalBalance := Bal(ledger, route.asset, c.self);
      var preBalance := activePreLoanBalance;
      var chargedPremium := activePremium;
      activeRouteHash := ZeroHash;
      ClearLoan();

      var refused := TooLittle(finalBalance, preBalance, route.minProfit);
      if refused.Some? { return Reverted(refused.value); }
      events := events + [RouteExecuted(route.routeHash, route.asset, route.amount, chargedPremium,
          finalBalance - preBalance)];
      operationEntered := false;
      return Returned(0);
    }

    method ClearLoan()
      modifies this`activePreLoanBalance, this`activePremium
      ensures activePreLoanBalance == 0 && activePremium == 0
    {
      activePreLoanBalance := 0;
      activePremium := 0;
    }

    method ClearSelection()
      modifies this`activeSelectedCandidateId, this`activeSelectedCandidateIndex, this`activeSelectedMinProfit
      ensures activeSelectedCandidateId == 0 && activeSelectedCandidateIndex == 0 && activeSelectedMinProfit == 0
    {
      activeSelectedCandidateId := 0;
      activeSelectedCandidateIndex := 0;
      activeSelectedMinProfit := 0;
    }

    method ClearPacked()
      modifies this`activeBatchHash, this`activePreLoanBalance, this`activePremium, this`activeSelectedCandidateId,
               this`activeSelectedCandidateIndex, this`activeSelectedMinProfit
      ensures var w := old(State());
              State() == w.(store := w.store.(activeBatchHash := ZeroHash, activePreLoanBalance := 0,
                  activePremium := 0,
                                              activeSelectedCandidateId := 0, activeSelectedCandidateIndex := 0,
                                                  activeSelectedMinProfit := 0))
    {
      activeBatchHash := ZeroHash;
      ClearLoan();
      ClearSelection();
    }

    /** startPacked after the loan. */
    method FinishPacked(c: Chain, batchHash: Hash, asset: Address, amount: nat) returns (r: Status)
      modifies this
      ensures Agrees(PackedClosed(c, batchHash, asset, amount, old(State())), r, State())
    {
      hide Bal;
      var finalBalance := Bal(ledger, asset, c.self);
      var preBalance := activePreLoanBalance;
      var chargedPremium := activePremium;
      var selectedId := activeSelectedCandidateId;
      var selectedIndex := activeSelectedCandidateIndex;
      var selectedMinProfit := activeSelectedMinProfit;

      ClearPacked();

      var refused := if selectedId == 0 then Some(NoCandidateSucceeded)
          else TooLittle(finalBalance, preBalance, selectedMinProfit);
      if refused.Some? { return Reverted(refused.value); }
      events := events + [PackedRouteExecuted(batchHash, selectedId, selectedIndex, asset, amount, chargedPremium,
          finalBalance - preBalance)];
      operationEntered := false;
      return Returned(0);
    }

    method CheckRoute(c: Chain, route: Route) returns (r: Option<Error>)
      ensures r == RouteChecks(c, route, State())
    {
      hide RouteError, RouteDigest, FirstDirty, Bal;
      if paused { return Some(Paused); }
      if activeRouteHash != ZeroHash || activeBatchHash != ZeroHash { return Some(Reentrant); }
      if c.number > route.targetBlock || c.timestamp > route.deadline { return Some(StaleRoute); }
      var digest := HashRoute(route);
      if digest != route.routeHash { return Some(InvalidRoute); }
      if route.routeHash in commitmentUsed { return Some(CommitmentAlreadyUsed); }
      r := ValidateRoute(route);
      if r.Some? { return; }
      r := RequireCleanIntermediates(c, route.asset, route.legs);
    }

    method OpenRoute(c: Chain, route: Route)
      requires operationEntered
      modifies this`commitmentUsed, this`activeRouteHash, this`activePreLoanBalance
      ensures State() == StartOpened(c, route, old(State()))
    {
      hide Bal;
      commitmentUsed := commitmentUsed + {route.routeHash};
      activeRouteHash := route.routeHash;
      activePreLoanBalance := Bal(ledger, route.asset, c.self);
    }

    /** start. */
    method CallStart(c: Chain, sender: Address, route: Route, pool: PoolCode) returns (r: Status)
      modifies this
      ensures Agrees(DoStart(c, sender, route, pool, old(State())), r, State())
      decreases pool, 1
    {
      hide RunPool, RouteChecks, Bal, StartClosed;
      if sender != owner { return Reverted(Unauthorized); }
      if operationEntered { return Reverted(Reentrant); }
      operationEntered := true;
      var refused := CheckRoute(c, route);
      LockDoesNotMatter(c, route, old(State()), State());
      if refused.Some? { return Reverted(refused.value); }
      OpenRoute(c, route);

      r := CallPool(c, pool, route.asset, route.amount, EncodedRoute(route));
      if r.Reverted? { return; }
      r := FinishStart(c, route);
    }

    method CheckPacked(c: Chain, packed: seq<Byte>) returns (r: Result<Batch, Error>)
      ensures match PackedChecks(c, packed, State())
              case Some(e) => r == Failure(e)
              case None => ParseBatch(packed).Success? && r == Success(ParseBatch(packed).value)
    {
      hide BatchError, FirstDirtyCandidate, Bal, ParseBatch;
      if paused { return Failure(Paused); }
      if activeRouteHash != ZeroHash || activeBatchHash != ZeroHash { return Failure(Reentrant); }
      var decoded := Sol.DecodePacked(packed);
      if decoded.Failure? { return Failure(InvalidPackedBatch); }
      var b := decoded.value;
      if c.number > b.targetBlock || c.timestamp > b.deadline { return Failure(StaleRoute); }
      var invalid := ValidatePacked(b);
      if invalid.Some? { return Failure(invalid.value); }
      var dirty := RequireCleanPackedIntermediates(c, b.asset, b.candidates);
      if dirty.Some? { return Failure(dirty.value); }
      if Digest(RawBytes(packed)) in commitmentUsed { return Failure(CommitmentAlreadyUsed); }
      return Success(b);
    }

    method OpenPacked(c: Chain, packed: seq<Byte>, asset: Address)
      requires operationEntered
      modifies this
      ensures State() == PackedOpened(c, packed, asset, old(State()))
    {
      hide Bal;
      var batchHash := Digest(RawBytes(packed));
      commitmentUsed := commitmentUsed + {batchHash};
      activeBatchHash := batchHash;
      activePreLoanBalance := Bal(ledger, asset, c.self);
      ClearSelection();
    }

    /** startPacked. */
    method CallStartPacked(c: Chain, sender: Address, packed: seq<Byte>, pool: PoolCode) returns (r: Status)
      modifies this
      ensures Agrees(DoStartPacked(c, sender, packed, pool, old(State())), r, State())
      decreases pool, 1
    {
      hide RunPool, PackedChecks, Bal, ParseBatch, PackedClosed;
      if sender != owner { return Reverted(Unauthorized); }
      if operationEntered { return Reverted(Reentrant); }
      operationEntered := true;
      var checked := CheckPacked(c, packed);
      LockDoesNotMatterPacked(c, packed, old(State()), State());
      if checked.Failure? { return Reverted(checked.error); }
      var b := checked.value;
      OpenPacked(c, packed, b.asset);

      r := CallPool(c, pool, b.asset, b.amount, RawParams(packed));
      if r.Reverted? { return; }
      r := FinishPacked(c, Digest(RawBytes(packed)), b.asset, b.amount);
    }

    // ---- transactions ----

    /** A transaction: what its sender does, or nothing if it fails. */
    method Transact(c: Chain, tx: Tx)
      modifies this
      ensures State() == Commit(c, tx, old(State()))
    {
      hide RunAct;
      var snapshot := State();
      var r := Perform(At(c, tx), tx.act);
      if r.Reverted? { RollBack(snapshot); }
    }

    method TransactAll(c: Chain, txs: seq<Tx>)
      modifies this
      ensures State() == Run(c, txs, old(State()))
    {
      hide Commit;
      for i := 0 to |txs|
        invariant State() == Run(c, txs[..i], old(State()))
      {
        assert txs[..i + 1][..i] == txs[..i];
        Transact(c, txs[i]);
      }
      assert txs[..|txs|] == txs;
    }
  }

  /** Deployment: refused for no pool at all, otherwise the deployer owns a paused contract with nothing allowed. */
  method Deploy(pool: Address, deployer: Address, chainLedger: Ledger) returns (r: Result<BaseArbExecutor, Error>)
    ensures pool == 0 ==> r == Failure(Unauthorized)
    ensures pool != 0 ==>
              r.Success? && fresh(r.value) && r.value.State() == World(chainLedger, DeployedStore(deployer), [], map[])
  {
    if pool == 0 { return Failure(Unauthorized); }
    var executor := new BaseArbExecutor(deployer, chainLedger);
    return Success(executor);
  }
}
