/** The invariant of every run: any callers, any nesting, any blocks. */
module ExecutorHistory {
  import opened Bytes
  import opened PackedFormat
  import opened TokenLedger
  import opened Commitment
  import opened ExecutorModel
  import opened ExecutorCustody
  import opened ExecutorRuns

  ghost predicate Goes(c: Chain, w: World, r: Outcome) {
    r.Ok? ==> Invariant(c, r.world) && Progress(c, w, r.world)
  }

  lemma StaysPut(c: Chain, w: World)
    ensures Progress(c, w, w)
  {
  }

  lemma KeptGoes(c: Chain, w: World, l: Ledger)
    requires Invariant(c, w) && (c.honest ==> Kept(c, w.ledger, l))
    ensures Invariant(c, w.(ledger := l)) && Progress(c, w, w.(ledger := l))
  {
    hide Bal, Allowed, Conserved;
    if c.honest {
      forall t: Address
        ensures NoSpender(c, l, t)
      {
        assert NoSpender(c, w.ledger, t);
      }
    }
  }

  lemma SweepPays(c: Chain, token: Address, to: Address, amount: nat, w: World)
    requires Invariant(c, w) && Transfer(w.ledger, token, c.self, to, amount).Some?
    ensures var w1 := w.(ledger := Transfer(w.ledger, token, c.self, to, amount).value,
            swept := w.swept[token := Swept(w, token) + amount]);
            Invariant(c, w1) && Progress(c, w, w1)
  {
    hide Bal, Allowed, Conserved, Transfer, Supply;
    TransferEffect(w.ledger, token, c.self, to, amount);
    var l := Transfer(w.ledger, token, c.self, to, amount).value;
    if c.honest {
      TransferConserves(w.ledger, token, c.self, to, amount);
      forall t: Address
        ensures NoSpender(c, l, t)
      {
        assert NoSpender(c, w.ledger, t);
      }
    }
  }

  /**
   A sweep of an honest token takes exactly the amount out of the contract's balance and into its record
   of what was swept, unless the owner sends the contract its own tokens; it touches nothing else of the contract.
   */
  lemma SweepExactly(c: Chain, sender: Address, token: Address, to: Address, amount: nat, market: Market, w: World)
    requires c.honest && DoSweep(c, sender, token, to, amount, market, w).Ok?
    ensures var w' := DoSweep(c, sender, token, to, amount, market, w).world;
            && sender == w.store.owner && w'.store == w.store && w'.events == w.events
            && (forall t: Address :: t != token
                 ==> Bal(w'.ledger, t, c.self) == Bal(w.ledger, t, c.self) && Swept(w', t) == Swept(w, t))
            && Swept(w', token) == Swept(w, token) + amount
            && (to != c.self ==>
                  && Bal(w'.ledger, token, c.self) == Bal(w.ledger, token, c.self) - amount
                  && Bal(w'.ledger, token, to) == Bal(w.ledger, token, to) + amount
                  && Bal(w'.ledger, token, c.self) + Swept(w', token) == Bal(w.ledger, token, c.self) + Swept(w, token))
            && (to == c.self ==> Bal(w'.ledger, token, c.self) == Bal(w.ledger, token, c.self))
            && (forall t: Address, h: Address, s: Address :: Allowed(w'.ledger, t, h, s) == Allowed(w.ledger, t, h, s))
  {
    hide Bal, Allowed, Transfer;
    TransferEffect(w.ledger, token, c.self, to, amount);
  }

  lemma {:induction false} SweepInvariant(
      c: Chain, sender: Address, token: Address, to: Address, amount: nat, market: Market, w: World)
    requires c.self != c.pool && Invariant(c, w)
    ensures Goes(c, w, DoSweep(c, sender, token, to, amount, market, w))
    decreases market, 1
  {
    hide Invariant, Progress, Transfer, RunTree;
    if DoSweep(c, sender, token, to, amount, market, w).Ok? {
      SweepPays(c, token, to, amount, w);
      var w1 := w.(ledger := Transfer(w.ledger, token, c.self, to, amount).value,
          swept := w.swept[token := Swept(w, token) + amount]);
      var call := TransferCall(token, to, amount);
      if !c.honest && (w1.ledger, call) in market.hooks {
        InvariantTree(c, market.hooks[(w1.ledger, call)], w1);
        var r := RunTree(c, market.hooks[(w1.ledger, call)], w1);
        if r.Ok? {
          ProgressTwice(c, w, w1, r.world);
        }
      }
    }
  }

  /** Outside an operation the pool has nothing to call back for. */
  lemma NoCallbackAtRest(
      c: Chain, sender: Address, asset: Address, amount: nat, premium: nat, initiator: Address, params: Params,
      market: Market, w: World)
    requires AtRest(w.store)
    ensures DoExecuteOperation(c, sender, asset, amount, premium, initiator, params, market, w).Fail?
  {
  }

  lemma {:induction false} CallInvariant(c: Chain, sender: Address, entry: Entry, w: World)
    requires c.self != c.pool && Invariant(c, w) && sender != c.self
    ensures Goes(c, w, Call(c, sender, entry, w))
    decreases entry
  {
    hide DoStart, DoStartPacked, DoExecuteOperation, DoSweep, Bal, Allowed, Conserved, Closed, LastOwedMost;
    match entry {
      case SetAdapter(_, _) =>
      case SetToken(_, _) =>
      case SetPaused(_) =>
      case TransferOwnership(_) =>
      case AcceptOwnership =>
      case Start(route, pool) => StartInvariant(c, sender, route, pool, w);
      case StartPacked(packed, pool) => StartPackedInvariant(c, sender, packed, pool, w);
      case ExecuteOperation(asset, amount, premium, initiator, params, market) =>
        NoCallbackAtRest(c, sender, asset, amount, premium, initiator, params, market, w);
      case AttemptPackedCandidate(_, _, _, _, _) =>
      case Sweep(token, to, amount, market) => SweepInvariant(c, sender, token, to, amount, market, w);
    }
  }

  lemma {:induction false} InvariantTree(c: Chain, tree: Tree, w: World)
    requires c.self != c.pool && Invariant(c, w)
    ensures Goes(c, w, RunTree(c, tree, w))
    decreases tree
  {
    hide Invariant, Progress;
    match tree {
      case Done(_) => StaysPut(c, w);
      case Revert =>
      case Then(act, rest) =>
        InvariantAct(c, act, w);
        var r := RunAct(c, act, w);
        if r.Ok? {
          InvariantTree(c, rest, r.world);
          if RunTree(c, rest, r.world).Ok? {
            ProgressTwice(c, w, r.world, RunTree(c, rest, r.world).world);
          }
        }
      case Look(view, yes, no) => InvariantTree(c, if Answer(w.store, view) then yes else no, w);
    }
  }

  lemma ForeignActIsLedger(c: Chain, act: Act, w: World)
    requires !act.Attempt? && !act.Enter?
    ensures var r := RunAct(c, act, w);
            r.Ok? ==> r.world == w.(ledger := r.world.ledger)
  {
    hide Transfer, TransferFrom, Mint, Approve;
  }

  /** Any action by anyone keeps the invariant and makes progress. */
  lemma {:induction false} InvariantAct(c: Chain, act: Act, w: World)
    requires c.self != c.pool && Invariant(c, w)
    ensures Goes(c, w, RunAct(c, act, w))
    decreases act
  {
    hide Invariant, Progress, Call, Kept, Transfer, TransferFrom, Mint, Approve;
    StaysPut(c, w);
    if act.Attempt? {
      InvariantTree(c, act.body, w);
    } else if act.Enter? {
      if act.sender != c.self {
        CallInvariant(c, act.sender, act.entry, w);
      }
    } else {
      ForeignActIsLedger(c, act, w);
      var r := RunAct(c, act, w);
      if r.Ok? {
        if c.honest {
          LedgerActKept(c, act, w);
        }
        KeptGoes(c, w, r.world.ledger);
      }
    }
  }

  // ---- runs ----

  lemma InvariantIgnoresBlock(c: Chain, tx: Tx, w: World, w': World)
    ensures Invariant(At(c, tx), w) <==> Invariant(c, w)
    ensures Progress(At(c, tx), w, w') <==> Progress(c, w, w')
  {
    hide Bal, Allowed, Conserved;
    var d := At(c, tx);
    assert forall t: Address :: NoSpender(d, w.ledger, t) <==> NoSpender(c, w.ledger, t);
  }

  lemma CommitInvariant(c: Chain, tx: Tx, w: World)
    requires c.self != c.pool && Invariant(c, w)
    ensures Invariant(c, Commit(c, tx, w)) && Progress(c, w, Commit(c, tx, w))
  {
    hide Invariant, Progress, RunAct;
    StaysPut(c, w);
    InvariantIgnoresBlock(c, tx, w, w);
    InvariantAct(At(c, tx), tx.act, w);
    InvariantIgnoresBlock(c, tx, Commit(c, tx, w), w);
    InvariantIgnoresBlock(c, tx, w, Commit(c, tx, w));
  }

  /**
   Over every run of transactions from a world at rest: between transactions all locks and active
   fields are clear, commitments in the log are distinct and are exactly the used ones, and, with
   honest tokens and pool, nobody else holds an allowance and holdings plus sweeps never shrink.
   */
  lemma {:induction false} RunInvariant(c: Chain, txs: seq<Tx>, w: World)
    requires c.self != c.pool && Invariant(c, w)
    ensures Invariant(c, Run(c, txs, w)) && Progress(c, w, Run(c, txs, w))
  {
    hide Invariant, Progress, Commit;
    StaysPut(c, w);
    if txs != [] {
      var before := Run(c, txs[..|txs| - 1], w);
      RunInvariant(c, txs[..|txs| - 1], w);
      CommitInvariant(c, txs[|txs| - 1], before);
      ProgressTwice(c, w, before, Run(c, txs, w));
    }
  }

  /** A freshly deployed contract is at rest, provided nobody was given an allowance in its name before. */
  lemma DeployedAtRest(c: Chain, l: Ledger, owner: Address)
    requires c.honest ==> Conserved(l) && forall t: Address, s: Address :: Allowed(l, t, c.self, s) == 0
    ensures Invariant(c, World(l, DeployedStore(owner), [], map[]))
  {
    hide Conserved, Allowed;
  }

  /** No committed transaction but a sweep lowers any token balance of the contract. */
  lemma OnlySweepsLower(c: Chain, txs: seq<Tx>, tx: Tx, w: World, token: Address)
    requires c.self != c.pool && c.honest && Invariant(c, w)
    ensures var before := Run(c, txs, w);
            var after := Commit(c, tx, before);
            Swept(after, token) == Swept(before, token) ==>
              Bal(after.ledger, token, c.self) >= Bal(before.ledger, token, c.self)
  {
    hide Bal, Invariant, Run, Commit, Swept;
    RunInvariant(c, txs, w);
    CommitInvariant(c, tx, Run(c, txs, w));
  }

  /**
   Between transactions the contract has no allowance outstanding, except to the pool, for a token that
   never uses up the largest allowance, after a logged operation that owed exactly that.
   */
  lemma NoAllowanceOutstanding(c: Chain, txs: seq<Tx>, w: World, token: Address, spender: Address)
    requires c.self != c.pool && c.honest && Invariant(c, w)
    ensures var after := Run(c, txs, w);
            Allowed(after.ledger, token, c.self, spender) == 0
            || (spender == c.pool && c.unlimited && Allowed(after.ledger, token, c.self, spender) == MAX_UINT
                 && LastOwedMost(after.events, token))
  {
    hide Bal, Allowed, Run, Conserved, LastOwedMost, Logged;
    RunInvariant(c, txs, w);
    assert NoSpender(c, Run(c, txs, w).ledger, token);
  }

  /** A start that lands behind its own block or deadline changes nothing, in every run and whatever the pool does. */
  lemma LateStartChangesNothing(c: Chain, txs: seq<Tx>, tx: Tx, sender: Address, route: Route, pool: PoolCode, w: World)
    requires tx.act == Enter(sender, Start(route, pool))
    requires tx.number > route.targetBlock || tx.timestamp > route.deadline
    ensures Commit(c, tx, w) == w && Run(c, txs + [tx], w) == Run(c, txs, w)
  {
    hide RouteError, FirstDirty, RouteDigest, RunPool;
    assert (txs + [tx])[..|txs|] == txs;
    forall v
      ensures Commit(c, tx, v) == v
    {
      assert DoStart(At(c, tx), sender, route, pool, v).Fail?;
      assert Call(At(c, tx), sender, Start(route, pool), v).Fail?;
    }
  }

  /** The same for startPacked, by the block and deadline that its bytes carry. */
  lemma LateStartPackedChangesNothing(
      c: Chain, txs: seq<Tx>, tx: Tx, sender: Address, packed: seq<Byte>, pool: PoolCode, w: World)
    requires tx.act == Enter(sender, StartPacked(packed, pool)) && ParseBatch(packed).Success?
    requires var b := ParseBatch(packed).value; tx.number > b.targetBlock || tx.timestamp > b.deadline
    ensures Commit(c, tx, w) == w && Run(c, txs + [tx], w) == Run(c, txs, w)
  {
    hide BatchError, FirstDirtyCandidate, ParseBatch, RunPool;
    assert (txs + [tx])[..|txs|] == txs;
    forall v
      ensures Commit(c, tx, v) == v
    {
      assert DoStartPacked(At(c, tx), sender, packed, pool, v).Fail?;
      assert Call(At(c, tx), sender, StartPacked(packed, pool), v).Fail?;
    }
  }

  /**
   No batch commits twice: a packed form is canonical, so two entries of the log never stand for one decoded batch.
   */
  lemma NoBatchCommitsTwice(c: Chain, txs: seq<Tx>, w: World, i: nat, j: nat, raw: seq<Byte>, raw': seq<Byte>)
    requires c.self != c.pool && Invariant(c, w)
    requires i < j < |Run(c, txs, w).events|
    requires Run(c, txs, w).events[i].commitment == ParamsHash(RawParams(raw))
    requires Run(c, txs, w).events[j].commitment == ParamsHash(RawParams(raw'))
    requires ParseBatch(raw).Success? && ParseBatch(raw').Success?
    ensures ParseBatch(raw) != ParseBatch(raw')
  {
    hide Run, ParseBatch, Progress;
    RunInvariant(c, txs, w);
    if ParseBatch(raw) == ParseBatch(raw') {
      DecodingInjective(raw, raw');
    }
  }

  /** No route commits twice: two entries of the log with route commitments differ in a committed field or in a leg. */
  lemma NoRouteCommitsTwice(c: Chain, txs: seq<Tx>, w: World, i: nat, j: nat, r: Route, r': Route)
    requires c.self != c.pool && Invariant(c, w)
    requires i < j < |Run(c, txs, w).events|
    requires Run(c, txs, w).events[i].commitment == RouteDigest(r)
             && Run(c, txs, w).events[j].commitment == RouteDigest(r')
    ensures r.(routeHash := ZeroHash) != r'.(routeHash := ZeroHash)
  {
    hide Run, Progress;
    RunInvariant(c, txs, w);
  }
}
