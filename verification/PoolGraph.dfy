/**
 The live pool graph: a two-way index of pools and tokens kept up to date by registration, and the
 bounded enumeration of directed rings through a set of changed pools. Normalised addresses are
 fixed-width text, so they are modelled as numbers in the same order.
 */
module PoolGraph {
  import opened Bytes
  import opened SortedSets

  type Address = nat

  datatype Pool = Pool(
    address: Address, token0: Address, token1: Address, venue: string, poolType: string, fee: Option<nat>,
    stable: Option<bool>)

  /** tokens lists one more entry than pools; hop i trades tokens[i] for tokens[i + 1] in pools[i]. */
  datatype Cycle = Cycle(pools: seq<Pool>, tokens: seq<Address>)

  type Pools = map<Address, Pool>
  type Index = map<Address, set<Address>>

  // ---- registration ----

  predicate Touches(p: Pool, t: Address) {
    p.token0 == t || p.token1 == t
  }

  function Under(index: Index, t: Address): set<Address> {
    if t in index then index[t] else {}
  }

  /** Pools sit under their own address, and each token's entry is exactly the registered pools that trade it. */
  ghost predicate Exact(pools: Pools, index: Index) {
    && (forall a :: a in pools ==> pools[a].address == a)
    && (forall t, a :: a in Under(index, t) <==> a in pools && Touches(pools[a], t))
  }

  /** What a history of registrations leaves: the latest entry of every address. */
  function Latest(history: seq<Pool>): Pools {
    if history == [] then map[]
    else
      var n := |history| - 1;
      Latest(history[..n])[history[n].address := history[n]]
  }

  /** The entry of an address is the last pool registered under it; there is none if there was no such pool. */
  lemma {:induction false} LatestIsLast(history: seq<Pool>, a: Address)
    ensures a in Latest(history)
            <==> exists i :: 0 <= i < |history| && IsLastOf(history, i, a)
    ensures forall i :: 0 <= i < |history| && IsLastOf(history, i, a) ==> Latest(history)[a] == history[i]
  {
    if history != [] {
      var n := |history| - 1;
      var before := history[..n];
      LatestIsLast(before, a);
      if history[n].address == a {
        assert IsLastOf(history, n, a);
      } else {
        assert forall i :: 0 <= i < n ==>
                 (IsLastOf(history, i, a) <==> IsLastOf(before, i, a)) && history[i] == before[i];
      }
    }
  }

  lemma LatestGrows(history: seq<Pool>, pool: Pool)
    ensures Latest(history + [pool]) == Latest(history)[pool.address := pool]
  {
    assert (history + [pool])[..|history|] == history;
  }

  predicate IsLastOf(history: seq<Pool>, i: nat, a: Address)
    requires i < |history|
  {
    history[i].address == a && forall j :: i < j < |history| ==> history[j].address != a
  }

  // ---- ring enumeration ----

  /** _other_token. */
  function Other(p: Pool, t: Address): Option<Address> {
    if p.token0 == t then Some(p.token1) else if p.token1 == t then Some(p.token0) else None
  }

  function Addresses(pools: seq<Pool>): (a: seq<Address>)
    ensures |a| == |pools| && forall i :: 0 <= i < |a| ==> a[i] == pools[i].address
  {
    seq(|pools|, i requires 0 <= i < |pools| => pools[i].address)
  }

  type Key = (seq<Address>, seq<Address>)

  /** Cycle.key: addresses are fixed-width text, so joining them loses nothing. */
  function KeyOf(c: Cycle): Key {
    (Addresses(c.pools), c.tokens)
  }

  /** A dictionary of cycles by key; a key keeps the place of its first insertion. */
  datatype Cycles = Cycles(order: seq<Key>, table: map<Key, Cycle>)

  function Put(d: Cycles, c: Cycle): Cycles {
    Cycles(if KeyOf(c) in d.table then d.order else d.order + [KeyOf(c)], d.table[KeyOf(c) := c])
  }

  ghost predicate Has(d: Cycles, c: Cycle) {
    KeyOf(c) in d.table && d.table[KeyOf(c)] == c
  }

  predicate Registered(c: Cycle, pools: Pools) {
    forall i :: 0 <= i < |c.pools| ==> c.pools[i].address in pools && pools[c.pools[i].address] == c.pools[i]
  }

  ghost predicate Faithful(d: Cycles, pools: Pools) {
    && (forall k :: k in d.table ==> KeyOf(d.table[k]) == k && Registered(d.table[k], pools))
    && (forall k :: k in d.order <==> k in d.table)
    && (forall i, j :: 0 <= i < j < |d.order| ==> d.order[i] != d.order[j])
  }

  lemma KeyDetermines(c: Cycle, d: Cycle, pools: Pools)
    requires Registered(c, pools) && Registered(d, pools) && KeyOf(c) == KeyOf(d)
    ensures c == d
  {
    assert forall i :: 0 <= i < |c.pools| ==> Addresses(c.pools)[i] == Addresses(d.pools)[i];
    assert forall i :: 0 <= i < |c.pools| ==> c.pools[i] == d.pools[i];
  }

  lemma PutAdds(d: Cycles, c: Cycle, pools: Pools)
    requires Faithful(d, pools) && Registered(c, pools)
    ensures Faithful(Put(d, c), pools)
    ensures forall x :: Has(Put(d, c), x) <==> Has(d, x) || x == c
  {
    hide KeyOf, Registered;
    forall x | Has(d, x)
      ensures Has(Put(d, c), x)
    {
      if KeyOf(x) == KeyOf(c) {
        KeyDetermines(x, c, pools);
      }
    }
  }

  /** A two-hop walk out and back over two registered pools. */
  predicate Found2(c: Cycle, pools: Pools) {
    && |c.pools| == 2 && |c.tokens| == 3 && Registered(c, pools)
    && c.pools[0].address != c.pools[1].address
    && Other(c.pools[0], c.tokens[0]) == Some(c.tokens[1])
    && Other(c.pools[1], c.tokens[1]) == Some(c.tokens[2])
    && c.tokens[2] == c.tokens[0]
  }

  /** A three-hop walk over three registered pools whose second hop does not lead straight back. */
  predicate Found3(c: Cycle, pools: Pools) {
    && |c.pools| == 3 && |c.tokens| == 4 && Registered(c, pools)
    && c.pools[0].address != c.pools[1].address
    && c.pools[2].address !in {c.pools[0].address, c.pools[1].address}
    && Other(c.pools[0], c.tokens[0]) == Some(c.tokens[1])
    && Other(c.pools[1], c.tokens[1]) == Some(c.tokens[2])
    && Other(c.pools[2], c.tokens[2]) == Some(c.tokens[3])
    && c.tokens[3] == c.tokens[0] && c.tokens[2] != c.tokens[0]
  }

  /** Two-hop walks from start through p1, coming back through a pool of a set. */
  predicate Back2(c: Cycle, pools: Pools, p1: Pool, start: Address, back: set<Address>) {
    Found2(c, pools) && c.pools[0] == p1 && c.tokens[0] == start && c.pools[1].address in back
  }

  predicate Over3(c: Cycle, pools: Pools, p1: Pool, start: Address, over: set<Address>) {
    Found3(c, pools) && c.pools[0] == p1 && c.tokens[0] == start && c.pools[1].address in over
  }

  predicate Back3(c: Cycle, pools: Pools, p1: Pool, start: Address, p2: Pool, back: set<Address>) {
    Found3(c, pools) && c.pools[0] == p1 && c.tokens[0] == start && c.pools[1] == p2 && c.pools[2].address in back
  }

  lemma Next2(pools: Pools, p1: Pool, start: Address, mid: Address, done: set<Address>, a: Address)
    requires p1.address in pools && pools[p1.address] == p1 && Other(p1, start) == Some(mid)
    requires a in pools && pools[a].address == a
    ensures var c := Cycle([p1, pools[a]], [start, mid, start]);
            if a != p1.address && Other(pools[a], mid) == Some(start)
            then
              && Registered(c, pools)
              && forall x :: Back2(x, pools, p1, start, done + {a}) <==> Back2(x, pools, p1, start, done) || x == c
            else forall x :: Back2(x, pools, p1, start, done + {a}) <==> Back2(x, pools, p1, start, done)
  {
    hide Other;
    forall x | Back2(x, pools, p1, start, {a})
      ensures x == Cycle([p1, pools[a]], [start, mid, start])
    {
      assert x.pools == [p1, pools[a]] && x.tokens == [start, mid, start];
    }
    forall x
      ensures Back2(x, pools, p1, start, done + {a})
              <==> Back2(x, pools, p1, start, done) || Back2(x, pools, p1, start, {a})
    {
    }
  }

  lemma NextOver3(pools: Pools, index: Index, p1: Pool, start: Address, mid: Address, done: set<Address>, a: Address)
    requires Exact(pools, index)
    requires p1.address in pools && pools[p1.address] == p1 && Other(p1, start) == Some(mid)
    requires a in pools && pools[a].address == a
    ensures var third := Other(pools[a], mid);
            if a != p1.address && third.Some? && third.value != start
            then
              forall x ::
                Over3(x, pools, p1, start, done + {a})
                <==> Over3(x, pools, p1, start, done) || Back3(x, pools, p1, start, pools[a], Under(index, third.value))
            else forall x :: Over3(x, pools, p1, start, done + {a}) <==> Over3(x, pools, p1, start, done)
  {
    forall x
      ensures Over3(x, pools, p1, start, done + {a})
              <==> Over3(x, pools, p1, start, done) || Over3(x, pools, p1, start, {a})
    {
    }
  }

  lemma NextBack3(
      pools: Pools, p1: Pool, start: Address, mid: Address, p2: Pool, third: Address, done: set<Address>, a: Address)
    requires p1.address in pools && pools[p1.address] == p1 && Other(p1, start) == Some(mid)
    requires p2.address in pools && pools[p2.address] == p2 && p2.address != p1.address
    requires Other(p2, mid) == Some(third) && third != start
    requires a in pools && pools[a].address == a
    ensures var c := Cycle([p1, p2, pools[a]], [start, mid, third, start]);
            if a !in {p1.address, p2.address} && Other(pools[a], third) == Some(start)
            then Registered(c, pools)
                 && forall x :: Back3(x, pools, p1, start, p2, done + {a})
                      <==> Back3(x, pools, p1, start, p2, done) || x == c
            else forall x :: Back3(x, pools, p1, start, p2, done + {a}) <==> Back3(x, pools, p1, start, p2, done)
  {
    hide Other;
    forall x | Back3(x, pools, p1, start, p2, {a})
      ensures x == Cycle([p1, p2, pools[a]], [start, mid, third, start])
    {
      assert x.pools == [p1, p2, pools[a]] && x.tokens == [start, mid, third, start];
    }
    forall x
      ensures Back3(x, pools, p1, start, p2, done + {a})
              <==> Back3(x, pools, p1, start, p2, done) || Back3(x, pools, p1, start, p2, {a})
    {
    }
  }

  /** The two-hop loop of cycles_for_affected. */
  method AddTwoHops(pools: Pools, index: Index, p1: Pool, start: Address, mid: Address, cycles: Cycles)
    returns (d: Cycles)
    requires Exact(pools, index) && Faithful(cycles, pools)
    requires p1.address in pools && pools[p1.address] == p1 && Other(p1, start) == Some(mid)
    ensures Faithful(d, pools)
    ensures forall x :: Has(d, x) <==> Has(cycles, x) || Back2(x, pools, p1, start, Under(index, mid))
  {
    hide Sorted, Registered, Put, Faithful, Has, Back2, Other;
    var addresses := Sorted(Under(index, mid));
    SortedIsSorted(Under(index, mid));
    d := cycles;
    ghost var done: set<Address> := {};
    NoneBack2(pools, p1, start);
    for i := 0 to |addresses|
      invariant done == set k | 0 <= k < i :: addresses[k]
      invariant Faithful(d, pools)
      invariant forall x :: Has(d, x) <==> Has(cycles, x) || Back2(x, pools, p1, start, done)
    {
      var a := addresses[i];
      Next2(pools, p1, start, mid, done, a);
      done := done + {a};
      if a == p1.address {
        continue;
      }
      var p2 := pools[a];
      if Other(p2, mid) == Some(start) {
        PutAdds(d, Cycle([p1, p2], [start, mid, start]), pools);
        d := Put(d, Cycle([p1, p2], [start, mid, start]));
      }
    }
    assert done == Under(index, mid);
  }

  lemma NoneBack2(pools: Pools, p1: Pool, start: Address)
    ensures forall x :: !Back2(x, pools, p1, start, {})
  {
  }

  lemma NoneOver3(pools: Pools, p1: Pool, start: Address)
    ensures forall x :: !Over3(x, pools, p1, start, {})
  {
  }

  lemma NoneBack3(pools: Pools, p1: Pool, start: Address, p2: Pool)
    ensures forall x :: !Back3(x, pools, p1, start, p2, {})
  {
  }

  /** The innermost three-hop loop. */
  method AddClosingHops(
      pools: Pools, index: Index, p1: Pool, start: Address, mid: Address, p2: Pool, third: Address, cycles: Cycles)
    returns (d: Cycles)
    requires Exact(pools, index) && Faithful(cycles, pools)
    requires p1.address in pools && pools[p1.address] == p1 && Other(p1, start) == Some(mid)
    requires p2.address in pools && pools[p2.address] == p2 && p2.address != p1.address
    requires Other(p2, mid) == Some(third) && third != start
    ensures Faithful(d, pools)
    ensures forall x :: Has(d, x) <==> Has(cycles, x) || Back3(x, pools, p1, start, p2, Under(index, third))
  {
    hide Sorted, Registered, Put, Faithful, Has, Back3, Other;
    var addresses := Sorted(Under(index, third));
    SortedIsSorted(Under(index, third));
    d := cycles;
    ghost var done: set<Address> := {};
    NoneBack3(pools, p1, start, p2);
    for i := 0 to |addresses|
      invariant done == set k | 0 <= k < i :: addresses[k]
      invariant Faithful(d, pools)
      invariant forall x :: Has(d, x) <==> Has(cycles, x) || Back3(x, pools, p1, start, p2, done)
    {
      var a := addresses[i];
      NextBack3(pools, p1, start, mid, p2, third, done, a);
      done := done + {a};
      if a in {p1.address, p2.address} {
        continue;
      }
      var p3 := pools[a];
      if Other(p3, third) == Some(start) {
        PutAdds(d, Cycle([p1, p2, p3], [start, mid, third, start]), pools);
        d := Put(d, Cycle([p1, p2, p3], [start, mid, third, start]));
      }
    }
    assert done == Under(index, third);
  }

  /** The three-hop loop. */
  method AddThreeHops(pools: Pools, index: Index, p1: Pool, start: Address, mid: Address, cycles: Cycles)
    returns (d: Cycles)
    requires Exact(pools, index) && Faithful(cycles, pools)
    requires p1.address in pools && pools[p1.address] == p1 && Other(p1, start) == Some(mid)
    ensures Faithful(d, pools)
    ensures forall x :: Has(d, x) <==> Has(cycles, x) || Over3(x, pools, p1, start, Under(index, mid))
  {
    hide Sorted, Registered, Faithful, Has, Over3, Back3, Other;
    var addresses := Sorted(Under(index, mid));
    SortedIsSorted(Under(index, mid));
    d := cycles;
    ghost var done: set<Address> := {};
    NoneOver3(pools, p1, start);
    for i := 0 to |addresses|
      invariant done == set k | 0 <= k < i :: addresses[k]
      invariant Faithful(d, pools)
      invariant forall x :: Has(d, x) <==> Has(cycles, x) || Over3(x, pools, p1, start, done)
    {
      var a := addresses[i];
      NextOver3(pools, index, p1, start, mid, done, a);
      done := done + {a};
      if a == p1.address {
        continue;
      }
      var p2 := pools[a];
      var third := Other(p2, mid);
      if third.None? || third.value == start {
        continue;
      }
      d := AddClosingHops(pools, index, p1, start, mid, p2, third.value, d);
    }
    assert done == Under(index, mid);
  }

  /** What the enumeration looks for; the hop limit only decides about three hops. */
  predicate Found(c: Cycle, pools: Pools, maxHops: int) {
    Found2(c, pools) || (maxHops >= 3 && Found3(c, pools))
  }

  predicate From(c: Cycle, pools: Pools, p1: Pool, start: Address, maxHops: int) {
    Found(c, pools, maxHops) && c.pools[0] == p1 && c.tokens[0] == start
  }

  predicate Enumerated(c: Cycle, pools: Pools, starts: set<Address>, maxHops: int) {
    Found(c, pools, maxHops) && c.pools[0].address in starts
  }

  lemma FromExactly(pools: Pools, index: Index, p1: Pool, start: Address, mid: Address)
    requires Exact(pools, index) && Other(p1, start) == Some(mid)
    ensures forall c :: Back2(c, pools, p1, start, Under(index, mid)) <==> From(c, pools, p1, start, 2)
    ensures forall c ::
              Back2(c, pools, p1, start, Under(index, mid)) || Over3(c, pools, p1, start, Under(index, mid))
              <==> From(c, pools, p1, start, 3)
    ensures forall c, m {:trigger From(c, pools, p1, start, m)} ::
              From(c, pools, p1, start, m) <==> From(c, pools, p1, start, if m >= 3 then 3 else 2)
  {
  }

  /** The body of the two outer loops. */
  method AddFrom(pools: Pools, index: Index, p1: Pool, start: Address, maxHops: int, cycles: Cycles)
    returns (d: Cycles)
    requires Exact(pools, index) && Faithful(cycles, pools)
    requires p1.address in pools && pools[p1.address] == p1 && Touches(p1, start)
    ensures Faithful(d, pools)
    ensures forall x :: Has(d, x) <==> Has(cycles, x) || From(x, pools, p1, start, maxHops)
  {
    var mid := Other(p1, start).value;
    FromExactly(pools, index, p1, start, mid);
    hide Faithful, Has, Over3, Back2, From, Other;
    d := AddTwoHops(pools, index, p1, start, mid, cycles);
    if maxHops >= 3 {
      d := AddThreeHops(pools, index, p1, start, mid, d);
    }
  }

  lemma StartsExactly(pools: Pools, p1: Pool, starts: set<Address>, maxHops: int)
    requires p1.address in pools && pools[p1.address] == p1
    ensures forall x ::
              Enumerated(x, pools, starts + {p1.address}, maxHops)
              <==> Enumerated(x, pools, starts, maxHops) || From(x, pools, p1, p1.token0, maxHops)
                   || From(x, pools, p1, p1.token1, maxHops)
  {
  }

  lemma UnknownStart(pools: Pools, a: Address, starts: set<Address>, maxHops: int)
    requires a !in pools
    ensures forall x :: Enumerated(x, pools, starts + {a}, maxHops) <==> Enumerated(x, pools, starts, maxHops)
  {
  }

  /** list(cycles.values()), in insertion order. */
  function ValuesOf(d: Cycles): (cycles: seq<Cycle>)
    requires forall k :: k in d.order ==> k in d.table
    ensures |cycles| == |d.order|
    ensures forall i :: 0 <= i < |cycles| ==> cycles[i] == d.table[d.order[i]]
  {
    seq(|d.order|, i requires 0 <= i < |d.order| => d.table[d.order[i]])
  }

  lemma ValuesAreHeld(d: Cycles, pools: Pools)
    requires Faithful(d, pools)
    ensures forall c :: c in ValuesOf(d) <==> Has(d, c)
    ensures forall i, j :: 0 <= i < j < |ValuesOf(d)| ==> ValuesOf(d)[i] != ValuesOf(d)[j]
  {
    hide KeyOf, Registered;
    var v := ValuesOf(d);
    assert forall i :: 0 <= i < |v| ==> d.order[i] in d.table && KeyOf(v[i]) == d.order[i];
    forall c | Has(d, c)
      ensures c in v
    {
      assert KeyOf(c) in d.order;
      var i :| 0 <= i < |d.order| && d.order[i] == KeyOf(c);
      assert v[i] == c;
    }
  }

  /** Taking an address out of the index and listing its new pool under both tokens keeps the index exact. */
  lemma ListedAnew(pools: Pools, before: Index, after: Index, pool: Pool)
    requires forall a :: a in pools ==> pools[a].address == a
    requires forall t, a :: a in Under(before, t) <==> a in pools && a != pool.address && Touches(pools[a], t)
    requires forall t :: Under(after, t) == Under(before, t) + if Touches(pool, t) then {pool.address} else {}
    ensures Exact(pools[pool.address := pool], after)
  {
    hide Under;
  }

  class LivePoolGraph {
    var pools: Pools
    var tokenToPools: Index
    ghost var history: seq<Pool>

    /** Whatever was registered or replaced before, the index is exact and the last entry of an address counts. */
    ghost predicate Valid()
      reads this
    {
      Exact(pools, tokenToPools) && pools == Latest(history)
    }

    constructor ()
      ensures Valid() && history == []
    {
      pools, tokenToPools, history := map[], map[], [];
    }

    method Discard(token: Address, address: Address)
      modifies this`tokenToPools
      ensures forall t :: Under(tokenToPools, t) == Under(old(tokenToPools), t) - (if t == token then {address} else {})
    {
      if token in tokenToPools {
        tokenToPools := tokenToPools[token := tokenToPools[token] - {address}];
      }
    }

    method Add(token: Address, address: Address)
      modifies this`tokenToPools
      ensures forall t :: Under(tokenToPools, t) == Under(old(tokenToPools), t) + (if t == token then {address} else {})
    {
      tokenToPools := tokenToPools[token := Under(tokenToPools, token) + {address}];
    }

    /** Takes the pool that an address stood for out of its two token entries. */
    method Unlist(address: Address)
      requires Valid()
      modifies this`tokenToPools
      ensures forall t, a :: a in Under(tokenToPools, t) <==> a in pools && a != address && Touches(pools[a], t)
    {
      hide Latest;
      if address in pools {
        var previous := pools[address];
        Discard(previous.token0, previous.address);
        Discard(previous.token1, previous.address);
      }
    }

    method Register(pool: Pool)
      requires Valid()
      modifies this
      ensures Valid() && history == old(history) + [pool]
      ensures pools == old(pools)[pool.address := pool]
    {
      hide Latest, Under;
      assert forall a :: a in pools ==> pools[a].address == a;
      hide Exact;
      Unlist(pool.address);
      ghost var unlisted, others := tokenToPools, pools;
      pools := pools[pool.address := pool];
      Add(pool.token0, pool.address);
      Add(pool.token1, pool.address);
      LatestGrows(history, pool);
      ListedAnew(others, unlisted, tokenToPools, pool);
      history := history + [pool];
    }

    /** pools_for_token: the registered pools that trade the token, by ascending address. */
    method PoolsForToken(token: Address) returns (found: seq<Pool>)
      requires Valid()
      ensures forall p: Pool :: p in found <==> p.address in pools && pools[p.address] == p && Touches(p, token)
      ensures forall i, j :: 0 <= i < j < |found| ==> found[i].address < found[j].address
    {
      hide Sorted;
      var addresses := Sorted(Under(tokenToPools, token));
      SortedIsSorted(Under(tokenToPools, token));
      found := [];
      for i := 0 to |addresses|
        invariant |found| == i
        invariant forall k :: 0 <= k < i ==> addresses[k] in pools && found[k] == pools[addresses[k]]
      {
        found := found + [pools[addresses[i]]];
      }
      forall p: Pool | p.address in pools && pools[p.address] == p && Touches(p, token)
        ensures p in found
      {
        var k :| 0 <= k < |addresses| && addresses[k] == p.address;
        assert found[k] == p;
      }
    }

    /** affected_subgraph: exactly the pools that share a token with the changed pool, itself included. */
    method AffectedSubgraph(changed: Address) returns (known: bool, tokens: seq<Address>, affected: seq<Address>)
      requires Valid()
      ensures known <==> changed in pools
      ensures !known ==> tokens == [] && affected == []
      ensures known ==> forall t :: t in tokens <==> Touches(pools[changed], t)
      ensures known ==>
                forall a :: a in affected <==> a in pools && exists t ::
                    Touches(pools[changed], t) && Touches(pools[a], t)
      ensures Ascending(affected)
    {
      hide Sorted, Latest;
      known := changed in pools;
      tokens, affected := [], [];
      if known {
        var pool := pools[changed];
        tokens := Sorted({pool.token0, pool.token1});
        affected := Sorted({changed} + Under(tokenToPools, pool.token0) + Under(tokenToPools, pool.token1));
        SortedIsSorted({pool.token0, pool.token1});
        SortedIsSorted({changed} + Under(tokenToPools, pool.token0) + Under(tokenToPools, pool.token1));
        assert Touches(pool, pool.token0) && Touches(pool, pool.token1);
      }
    }

    /** cycles_for_affected: every walk the search describes that starts in the affected set, and each once. */
    method CyclesForAffected(affected: seq<Address>, maxHops: int) returns (cycles: seq<Cycle>)
      requires Valid()
      ensures forall c :: c in cycles <==> Enumerated(c, pools, (set a | a in affected), maxHops)
      ensures forall i, j :: 0 <= i < j < |cycles| ==> cycles[i] != cycles[j]
    {
      hide Sorted, Faithful, Has, From, Enumerated, Latest, ValuesOf;
      var starts := set a | a in affected;
      var addresses := Sorted(starts);
      SortedIsSorted(starts);
      var d := Cycles([], map[]);
      ghost var done: set<Address> := {};
      NothingYet(pools, maxHops);
      for i := 0 to |addresses|
        invariant done == set k | 0 <= k < i :: addresses[k]
        invariant Faithful(d, pools)
        invariant forall x :: Has(d, x) <==> Enumerated(x, pools, done, maxHops)
      {
        var a := addresses[i];
        if a !in pools {
          UnknownStart(pools, a, done, maxHops);
          done := done + {a};
          continue;
        }
        var p1 := pools[a];
        StartsExactly(pools, p1, done, maxHops);
        done := done + {a};
        d := AddFrom(pools, tokenToPools, p1, p1.token0, maxHops, d);
        d := AddFrom(pools, tokenToPools, p1, p1.token1, maxHops, d);
      }
      assert done == starts;
      ValuesAreHeld(d, pools);
      OrderHeld(d, pools);
      cycles := ValuesOf(d);
    }
  }

  lemma NothingYet(pools: Pools, maxHops: int)
    ensures Faithful(Cycles([], map[]), pools)
    ensures forall x :: !Has(Cycles([], map[]), x) && !Enumerated(x, pools, {}, maxHops)
  {
  }

  lemma OrderHeld(d: Cycles, pools: Pools)
    requires Faithful(d, pools)
    ensures forall k :: k in d.order ==> k in d.table
  {
  }
}
