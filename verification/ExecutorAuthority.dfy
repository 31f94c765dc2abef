/**
 Who can move the contract: what strangers cannot do, what the owner's calls do, and what an operation needs to begin.
 */
module ExecutorAuthority {
  import opened Bytes
  import opened PackedFormat
  import opened TokenLedger
  import opened Commitment
  import opened ExecutorModel
  import opened ExecutorValidation
  import opened ExecutorRuns
  import opened ExecutorSafety
  import opened ExecutorHistory

  // ---- strangers ----

  /** Nothing in the tree is a message to the contract from one of these senders. */
  predicate NoMessageFrom(tree: Tree, who: set<Address>)
    decreases tree
  {
    match tree
    case Done(_) => true
    case Revert => true
    case Then(act, rest) => NoMessageIn(act, who) && NoMessageFrom(rest, who)
    case Look(_, yes, no) => NoMessageFrom(yes, who) && NoMessageFrom(no, who)
  }

  predicate NoMessageIn(act: Act, who: set<Address>)
    decreases act
  {
    match act
    case Attempt(body) => NoMessageFrom(body, who)
    case Enter(sender, _) => sender !in who
    case TransferBy(_, _, _, _) => true
    case PullBy(_, _, _, _, _) => true
    case ApproveBy(_, _, _, _) => true
    case Issue(_, _, _) => true
    case Touch(_, _) => true
    case Forge(_) => true
  }

  function Masters(s: Store): set<Address> {
    {s.owner, s.pendingOwner}
  }

  /** Between operations every state-changing entry point refuses everybody but the owner and the pending owner. */
  lemma StrangerCallFails(c: Chain, sender: Address, entry: Entry, w: World)
    requires AtRest(w.store) && sender != c.self && sender !in Masters(w.store)
    ensures Call(c, sender, entry, w).Fail?
  {
    hide DoExecuteOperation;
    match entry {
      case Start(route, pool) => assert StartError(c, sender, route, w).Some?;
      case StartPacked(packed, pool) => assert StartPackedError(c, sender, packed, w).Some?;
      case ExecuteOperation(asset, amount, premium, initiator, params, market) =>
        NoCallbackAtRest(c, sender, asset, amount, premium, initiator, params, market, w);
      case _ =>
    }
  }

  /**
   Between operations no code without a message from the owner or the pending owner changes storage, log or sweeps.
   */
  lemma {:induction false} StrangersChangeNothing(c: Chain, tree: Tree, w: World)
    requires AtRest(w.store) && NoMessageFrom(tree, Masters(w.store))
    ensures var r := RunTree(c, tree, w);
            r.Ok? ==> r.world == w.(ledger := r.world.ledger)
    decreases tree
  {
    hide RunAct, AtRest;
    match tree {
      case Done(_) =>
      case Revert =>
      case Then(act, rest) =>
        StrangerActChangesNothing(c, act, w);
        var r := RunAct(c, act, w);
        if r.Ok? {
          StrangersChangeNothing(c, rest, r.world);
        }
      case Look(view, yes, no) => StrangersChangeNothing(c, if Answer(w.store, view) then yes else no, w);
    }
  }

  lemma {:induction false} StrangerActChangesNothing(c: Chain, act: Act, w: World)
    requires AtRest(w.store) && NoMessageIn(act, Masters(w.store))
    ensures var r := RunAct(c, act, w);
            r.Ok? ==> r.world == w.(ledger := r.world.ledger)
    decreases act
  {
    hide Call, AtRest, RunTree;
    if act.Attempt? {
      StrangersChangeNothing(c, act.body, w);
    } else if act.Enter? {
      if act.sender != c.self {
        StrangerCallFails(c, act.sender, act.entry, w);
      }
    } else {
      ForeignActIsLedger(c, act, w);
    }
  }

  /** So a transaction that logs an operation, sweeps, or moves a setting carries a message from one of the two. */
  lemma ChangeNeedsMaster(c: Chain, txs: seq<Tx>, tx: Tx, w: World)
    requires c.self != c.pool && Invariant(c, w)
    ensures var before := Run(c, txs, w);
            var after := Commit(c, tx, before);
            after.store != before.store || after.events != before.events || after.swept != before.swept
            ==> !NoMessageIn(tx.act, Masters(before.store))
  {
    hide Run, RunAct, Progress, NoMessageIn, Logged;
    RunInvariant(c, txs, w);
    var before := Run(c, txs, w);
    if NoMessageIn(tx.act, Masters(before.store)) {
      StrangerActChangesNothing(At(c, tx), tx.act, before);
    }
  }

  // ---- settings ----

  /** The five messages that may move owner, successor, allow-lists or pause. */
  predicate IsSetting(entry: Entry) {
    entry.SetAdapter? || entry.SetToken? || entry.SetPaused? || entry.TransferOwnership? || entry.AcceptOwnership?
  }

  /** Nothing in the tree is such a message, nor in the code of a token that it sweeps. */
  ghost predicate NoSettingFrom(tree: Tree)
    decreases tree
  {
    match tree
    case Done(_) => true
    case Revert => true
    case Then(act, rest) => NoSettingIn(act) && NoSettingFrom(rest)
    case Look(_, yes, no) => NoSettingFrom(yes) && NoSettingFrom(no)
  }

  ghost predicate NoSettingIn(act: Act)
    decreases act
  {
    match act
    case Attempt(body) => NoSettingFrom(body)
    case Enter(_, entry) =>
      && !IsSetting(entry)
      && (entry.Sweep? ==> forall k :: k in entry.market.hooks ==> NoSettingFrom(entry.market.hooks[k]))
    case TransferBy(_, _, _, _) => true
    case PullBy(_, _, _, _, _) => true
    case ApproveBy(_, _, _, _) => true
    case Issue(_, _, _) => true
    case Touch(_, _) => true
    case Forge(_) => true
  }

  ghost predicate KeepsSettings(w: World, r: Outcome) {
    r.Ok? ==> SameSettings(w.store, r.world.store)
  }

  lemma {:induction false} NoSettingTree(c: Chain, tree: Tree, w: World)
    requires c.self != c.pool && Invariant(c, w) && NoSettingFrom(tree)
    ensures KeepsSettings(w, RunTree(c, tree, w))
    decreases tree
  {
    hide RunAct, Invariant, Progress, NoSettingIn;
    match tree {
      case Done(_) =>
      case Revert =>
      case Then(act, rest) =>
        NoSettingAct(c, act, w);
        InvariantAct(c, act, w);
        var r := RunAct(c, act, w);
        if r.Ok? {
          NoSettingTree(c, rest, r.world);
        }
      case Look(view, yes, no) => NoSettingTree(c, if Answer(w.store, view) then yes else no, w);
    }
  }

  /** Any action without such a message leaves the settings as they are, whatever operations it commits. */
  lemma {:induction false} NoSettingAct(c: Chain, act: Act, w: World)
    requires c.self != c.pool && Invariant(c, w) && NoSettingIn(act)
    ensures KeepsSettings(w, RunAct(c, act, w))
    decreases act
  {
    hide Invariant, RunTree, DoStart, DoStartPacked, DoExecuteOperation, DoSweep;
    if act.Attempt? {
      NoSettingTree(c, act.body, w);
    } else if act.Enter? {
      RestInside(c, w);
      match act.entry {
        case Start(route, pool) => StartLeavesStore(c, act.sender, route, pool, w);
        case StartPacked(packed, pool) => StartPackedLeavesStore(c, act.sender, packed, pool, w);
        case ExecuteOperation(asset, amount, premium, initiator, params, market) =>
          NoCallbackAtRest(c, act.sender, asset, amount, premium, initiator, params, market, w);
        case Sweep(token, to, amount, market) => NoSettingSweep(c, act.sender, token, to, amount, market, w);
        case AttemptPackedCandidate(candidate, asset, amount, premium, market) =>
          assert act.sender != c.self ==> DoAttempt(c, act.sender, candidate, asset, amount, premium, market, w).Fail?;
        case _ =>
      }
    } else {
      ForeignActIsLedger(c, act, w);
    }
  }

  lemma RestInside(c: Chain, w: World)
    requires Invariant(c, w)
    ensures AtRest(w.store)
  {
  }

  lemma {:induction false} NoSettingSweep(
      c: Chain, sender: Address, token: Address, to: Address, amount: nat, market: Market, w: World)
    requires c.self != c.pool && Invariant(c, w)
    requires forall k :: k in market.hooks ==> NoSettingFrom(market.hooks[k])
    ensures KeepsSettings(w, DoSweep(c, sender, token, to, amount, market, w))
    decreases market, 1
  {
    hide Invariant, Progress, Transfer, RunTree;
    if DoSweep(c, sender, token, to, amount, market, w).Ok? {
      SweepPays(c, token, to, amount, w);
      var l := Transfer(w.ledger, token, c.self, to, amount).value;
      var w1 := w.(ledger := l, swept := w.swept[token := Swept(w, token) + amount]);
      var call := TransferCall(token, to, amount);
      if !c.honest && (w1.ledger, call) in market.hooks {
        NoSettingTree(c, market.hooks[(w1.ledger, call)], w1);
      }
    }
  }

  /** Over every run owner, successor, allow-lists and pause move only through the five messages that set them. */
  lemma SettingsNeedSetter(c: Chain, txs: seq<Tx>, tx: Tx, w: World)
    requires c.self != c.pool && Invariant(c, w)
    ensures var before := Run(c, txs, w);
            var after := Commit(c, tx, before);
            !SameSettings(before.store, after.store) ==> !NoSettingIn(tx.act)
  {
    hide Run, RunAct, Progress, NoSettingIn, Invariant;
    RunInvariant(c, txs, w);
    var before := Run(c, txs, w);
    InvariantIgnoresBlock(c, tx, before, before);
    if NoSettingIn(tx.act) {
      NoSettingAct(At(c, tx), tx.act, before);
    }
  }

  // ---- the owner ----

  /** A setting changes as asked, alone, and only for the owner of an idle contract. */
  lemma OwnerSets(c: Chain, sender: Address, address: Address, allowed: bool, value: bool, w: World)
    ensures Call(c, sender, SetAdapter(address, allowed), w).Ok? <==> sender == w.store.owner && Idle(w.store)
    ensures Call(c, sender, SetToken(address, allowed), w).Ok? <==> sender == w.store.owner && Idle(w.store)
    ensures Call(c, sender, SetPaused(value), w).Ok? <==> sender == w.store.owner && Idle(w.store)
    ensures sender == w.store.owner && Idle(w.store) ==>
              var a := Call(c, sender, SetAdapter(address, allowed), w).world;
              && (forall x :: x in a.store.adapterAllowed
                   <==> if x == address then allowed else x in w.store.adapterAllowed)
              && a == w.(store := w.store.(adapterAllowed := a.store.adapterAllowed))
    ensures sender == w.store.owner && Idle(w.store) ==>
              var t := Call(c, sender, SetToken(address, allowed), w).world;
              && (forall x :: x in t.store.tokenAllowed
                   <==> if x == address then allowed else x in w.store.tokenAllowed)
              && t == w.(store := w.store.(tokenAllowed := t.store.tokenAllowed))
    ensures sender == w.store.owner && Idle(w.store) ==>
              Call(c, sender, SetPaused(value), w).world == w.(store := w.store.(paused := value))
  {
  }

  /** Ownership moves in two steps: the owner names a non-zero successor, and only that successor can complete it. */
  lemma OwnershipHandover(c: Chain, sender: Address, next: Address, taker: Address, w: World)
    requires Idle(w.store)
    ensures var r := Call(c, sender, TransferOwnership(next), w);
            && (r.Ok? <==> sender == w.store.owner && next != 0)
            && (r.Ok? ==>
                  && r.world.store.owner == w.store.owner
                  && var q := Call(c, taker, AcceptOwnership, r.world);
                     && (q.Ok? <==> taker == next)
                     && (q.Ok? ==> q.world == w.(store := w.store.(owner := next, pendingOwner := 0))))
  {
  }

  // ---- what an operation needs to begin ----

  /**
   start goes as far as the loan exactly for the owner of an unpaused, unlocked contract and a fresh, well-hashed,
   unused, accepted, clean route.
   */
  lemma StartAdmitsExactly(c: Chain, sender: Address, route: Route, w: World)
    ensures StartError(c, sender, route, w).None?
            <==> && sender == w.store.owner && !w.store.operationEntered && !w.store.paused
                 && w.store.activeRouteHash == ZeroHash && w.store.activeBatchHash == ZeroHash
                 && c.number <= route.targetBlock && c.timestamp <= route.deadline
                 && route.routeHash == RouteDigest(route) && route.routeHash !in w.store.commitmentUsed
                 && RouteAccepted(w.store, route) && Clean(w.ledger, c.self, route.asset, route.legs)
  {
    hide RouteError, FirstDirty, RouteAccepted, Clean, RouteDigest;
    RouteErrorExact(w.store, route);
    CleanExact(w.ledger, c.self, route.asset, route.legs);
  }

  /** The same for startPacked: the bytes must be a well-formed batch, accepted, fresh, clean and unused. */
  lemma StartPackedAdmitsExactly(c: Chain, sender: Address, packed: seq<Byte>, w: World)
    ensures StartPackedError(c, sender, packed, w).None?
            <==> && sender == w.store.owner && !w.store.operationEntered && !w.store.paused
                 && w.store.activeRouteHash == ZeroHash && w.store.activeBatchHash == ZeroHash
                 && ParamsHash(RawParams(packed)) !in w.store.commitmentUsed
                 && exists b :: Startable(c, b, w) && WellFormed(b) && Encode(b) == packed
  {
    hide ParseBatch, Encode, WellFormed, BatchError, FirstDirtyCandidate, BatchAccepted, Clean;
    AcceptedExactlyEncodings(packed);
    if ParseBatch(packed).Success? {
      var b := ParseBatch(packed).value;
      EncodeParse(packed);
      BatchErrorExact(w.store, b);
      FirstDirtyCandidateExact(w.ledger, c.self, b.asset, b.candidates, 0);
    }
  }

  predicate Startable(c: Chain, b: Batch, w: World) {
    && c.number <= b.targetBlock && c.timestamp <= b.deadline
    && BatchAccepted(w.store, b)
    && forall k :: 0 <= k < |b.candidates| ==> Clean(w.ledger, c.self, b.asset, b.candidates[k].legs)
  }
}
