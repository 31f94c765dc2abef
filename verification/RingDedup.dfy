/**
 Rotation dedup of directed rings, and what enumeration and dedup together report: every ring of
 registered pools through the affected set, once.
 */
module RingDedup {
  import opened Bytes
  import opened PoolGraph

  /** One hop of a ring: the pool, the token going in and the token coming out. */
  datatype Edge = Edge(pool: Address, tokenIn: Address, tokenOut: Address)

  predicate WellFormed(c: Cycle) {
    |c.tokens| == |c.pools| + 1
  }

  function Edges(c: Cycle): (e: seq<Edge>)
    requires WellFormed(c)
    ensures |e| == |c.pools|
    ensures forall i :: 0 <= i < |e| ==> e[i] == Edge(c.pools[i].address, c.tokens[i], c.tokens[i + 1])
  {
    seq(|c.pools|, i requires 0 <= i < |c.pools| => Edge(c.pools[i].address, c.tokens[i], c.tokens[i + 1]))
  }

  // ---- rotations ----

  function Rotate(e: seq<Edge>, i: nat): (r: seq<Edge>)
    requires i <= |e|
    ensures |r| == |e|
  {
    e[i..] + e[..i]
  }

  /** The same directed ring, entered somewhere else. */
  ghost predicate SameRing(e: seq<Edge>, f: seq<Edge>) {
    exists i :: 0 <= i <= |e| && f == Rotate(e, i)
  }

  lemma RotateParts(x: seq<Edge>, y: seq<Edge>)
    ensures Rotate(x + y, |x|) == y + x
  {
  }

  lemma Regroup(x: seq<Edge>, y: seq<Edge>, z: seq<Edge>)
    ensures (x + y) + z == x + (y + z)
  {
  }

  lemma CutInThree(e: seq<Edge>, i: nat, j: nat)
    requires i <= j <= |e|
    ensures e == e[..i] + (e[i..j] + e[j..])
  {
  }

  lemma RotateTwice(e: seq<Edge>, i: nat, j: nat)
    requires i <= |e| && j <= |e|
    ensures Rotate(Rotate(e, i), j) == if i + j <= |e| then Rotate(e, i + j) else Rotate(e, i + j - |e|)
  {
    hide Rotate;
    var p, q := if i + j <= |e| then i else i + j - |e|, if i + j <= |e| then i + j else i;
    var a, b, c := e[..p], e[p..q], e[q..];
    CutInThree(e, p, q);
    Regroup(a, b, c);
    RotateParts(a, b + c);
    RotateParts(a + b, c);
    Regroup(b, c, a);
    Regroup(c, a, b);
    RotateParts(b, c + a);
    RotateParts(c + a, b);
  }

  lemma SameRingReflexive(e: seq<Edge>)
    ensures SameRing(e, e)
  {
    assert Rotate(e, 0) == e;
  }

  lemma SameRingSymmetric(e: seq<Edge>, f: seq<Edge>)
    requires SameRing(e, f)
    ensures SameRing(f, e)
  {
    hide Rotate;
    var i :| 0 <= i <= |e| && f == Rotate(e, i);
    RotateTwice(e, i, |e| - i);
    RotateAll(e);
    assert e == Rotate(f, |e| - i);
  }

  lemma RotateAll(e: seq<Edge>)
    ensures Rotate(e, |e|) == e
  {
  }

  lemma SameRingTransitive(e: seq<Edge>, f: seq<Edge>, g: seq<Edge>)
    requires SameRing(e, f) && SameRing(f, g)
    ensures SameRing(e, g)
  {
    hide Rotate;
    var i :| 0 <= i <= |e| && f == Rotate(e, i);
    var j :| 0 <= j <= |f| && g == Rotate(f, j);
    RotateTwice(e, i, j);
  }

  // ---- the canonical rotation ----

  predicate EdgeLess(a: Edge, b: Edge) {
    a.pool < b.pool
    || (a.pool == b.pool && (a.tokenIn < b.tokenIn || (a.tokenIn == b.tokenIn && a.tokenOut < b.tokenOut)))
  }

  /** Tuple order: the first difference decides. */
  predicate Before(e: seq<Edge>, f: seq<Edge>) {
    if e == [] then f != []
    else if f == [] then false
    else EdgeLess(e[0], f[0]) || (e[0] == f[0] && Before(e[1..], f[1..]))
  }

  lemma {:induction false} BeforeTrichotomy(e: seq<Edge>, f: seq<Edge>)
    ensures Before(e, f) || e == f || Before(f, e)
    ensures !(Before(e, f) && Before(f, e)) && !Before(e, e)
  {
    if e != [] {
      BeforeTrichotomy(e[1..], e[1..]);
      if f != [] {
        BeforeTrichotomy(e[1..], f[1..]);
        assert e == [e[0]] + e[1..] && f == [f[0]] + f[1..];
      }
    }
  }

  lemma {:induction false} BeforeTransitive(e: seq<Edge>, f: seq<Edge>, g: seq<Edge>)
    requires Before(e, f) && Before(f, g)
    ensures Before(e, g)
  {
    if e != [] && e[0] == f[0] == g[0] {
      BeforeTransitive(e[1..], f[1..], g[1..]);
    }
  }

  /** The least of the first k rotations. */
  function LeastRotation(e: seq<Edge>, k: nat): (r: seq<Edge>)
    requires 1 <= k <= |e|
  {
    if k == 1 then Rotate(e, 0)
    else
      var least := LeastRotation(e, k - 1);
      if Before(Rotate(e, k - 1), least) then Rotate(e, k - 1) else least
  }

  function Canonical(e: seq<Edge>): seq<Edge> {
    if e == [] then e else LeastRotation(e, |e|)
  }

  lemma {:induction false} LeastRotationIsLeast(e: seq<Edge>, k: nat)
    requires 1 <= k <= |e|
    ensures exists i :: 0 <= i < k && LeastRotation(e, k) == Rotate(e, i)
    ensures forall i :: 0 <= i < k ==> !Before(Rotate(e, i), LeastRotation(e, k))
  {
    hide Rotate, Before;
    if k == 1 {
      BeforeTrichotomy(Rotate(e, 0), Rotate(e, 0));
    } else {
      LeastRotationIsLeast(e, k - 1);
      var least, next := LeastRotation(e, k - 1), Rotate(e, k - 1);
      BeforeTrichotomy(next, next);
      if Before(next, least) {
        forall i | 0 <= i < k - 1
          ensures !Before(Rotate(e, i), next)
        {
          if Before(Rotate(e, i), next) {
            BeforeTransitive(Rotate(e, i), next, least);
          }
        }
      }
    }
  }

  lemma CanonicalIsLeast(e: seq<Edge>, f: seq<Edge>)
    requires SameRing(e, f)
    ensures SameRing(e, Canonical(e)) && !Before(f, Canonical(e))
  {
    hide Rotate, Before, LeastRotation;
    if e == [] {
      RotateAll(e);
      SameRingReflexive(e);
      BeforeTrichotomy(e, e);
    } else {
      LeastRotationIsLeast(e, |e|);
      var i :| 0 <= i <= |e| && f == Rotate(e, i);
      if i == |e| {
        RotateAll(e);
        assert Rotate(e, 0) == e by { RotateNone(e); }
      }
    }
  }

  lemma RotateNone(e: seq<Edge>)
    ensures Rotate(e, 0) == e
  {
  }

  /** Two rings share their canonical form exactly when one is a rotation of the other. */
  lemma CanonicalExactly(e: seq<Edge>, f: seq<Edge>)
    ensures Canonical(e) == Canonical(f) <==> SameRing(e, f)
  {
    hide Rotate, Before, Canonical, SameRing;
    SameRingReflexive(e);
    SameRingReflexive(f);
    CanonicalIsLeast(e, e);
    CanonicalIsLeast(f, f);
    if SameRing(e, f) {
      SameRingTransitive(e, f, Canonical(f));
      CanonicalIsLeast(e, Canonical(f));
      SameRingSymmetric(e, f);
      SameRingTransitive(f, e, Canonical(e));
      CanonicalIsLeast(f, Canonical(e));
      BeforeTrichotomy(Canonical(e), Canonical(f));
    }
    if Canonical(e) == Canonical(f) {
      SameRingSymmetric(f, Canonical(f));
      SameRingTransitive(e, Canonical(e), f);
    }
  }

  // ---- dedup ----

  ghost predicate Seen(cycles: seq<Cycle>, c: Cycle)
    requires WellFormed(c) && forall x :: x in cycles ==> WellFormed(x)
  {
    exists x :: x in cycles && SameRing(Edges(x), Edges(c))
  }

  /** The first cycle of every ring, in the order of the input. */
  ghost function Kept(cycles: seq<Cycle>): (kept: seq<Cycle>)
    requires forall x :: x in cycles ==> WellFormed(x)
    ensures forall x :: x in kept ==> x in cycles
  {
    if cycles == [] then []
    else
      var earlier, c := cycles[..|cycles| - 1], cycles[|cycles| - 1];
      if Seen(earlier, c) then Kept(earlier) else Kept(earlier) + [c]
  }

  lemma KeptNext(cycles: seq<Cycle>, i: nat)
    requires i < |cycles| && forall x :: x in cycles ==> WellFormed(x)
    ensures Kept(cycles[..i + 1])
            == if Seen(cycles[..i], cycles[i]) then Kept(cycles[..i]) else Kept(cycles[..i]) + [cycles[i]]
  {
    assert cycles[..i + 1][..i] == cycles[..i];
  }

  /** _dedup_cycles. */
  method DedupCycles(cycles: seq<Cycle>) returns (out: seq<Cycle>)
    requires forall x :: x in cycles ==> WellFormed(x)
    ensures out == Kept(cycles)
  {
    hide Canonical, SameRing, Kept, WellFormed;
    var seen: set<seq<Edge>> := {};
    out := [];
    assert Kept(cycles[..0]) == [] by { KeptNone(cycles[..0]); }
    for i := 0 to |cycles|
      invariant seen == set k | 0 <= k < i :: Canonical(Edges(cycles[k]))
      invariant out == Kept(cycles[..i])
    {
      var canonical := Canonical(Edges(cycles[i]));
      KeptNext(cycles, i);
      SeenExactly(cycles, i);
      if canonical in seen {
        continue;
      }
      seen := seen + {canonical};
      out := out + [cycles[i]];
    }
    assert cycles[..|cycles|] == cycles;
  }

  lemma KeptNone(cycles: seq<Cycle>)
    requires cycles == []
    ensures Kept(cycles) == []
  {
  }

  lemma SeenExactly(cycles: seq<Cycle>, i: nat)
    requires i < |cycles| && forall x :: x in cycles ==> WellFormed(x)
    ensures Seen(cycles[..i], cycles[i])
            <==> exists k :: 0 <= k < i && Canonical(Edges(cycles[k])) == Canonical(Edges(cycles[i]))
  {
    hide Canonical, SameRing, WellFormed;
    forall k | 0 <= k < i
      ensures Canonical(Edges(cycles[k])) == Canonical(Edges(cycles[i]))
              <==> SameRing(Edges(cycles[k]), Edges(cycles[i]))
    {
      CanonicalExactly(Edges(cycles[k]), Edges(cycles[i]));
    }
    if Seen(cycles[..i], cycles[i]) {
      var x :| x in cycles[..i] && SameRing(Edges(x), Edges(cycles[i]));
      var k :| 0 <= k < i && cycles[..i][k] == x;
      assert cycles[k] == x;
    }
    if k :| 0 <= k < i && Canonical(Edges(cycles[k])) == Canonical(Edges(cycles[i])) {
      assert cycles[..i][k] == cycles[k];
      assert cycles[k] in cycles[..i];
    }
  }

  /** No two cycles of the list are rotations of each other. */
  ghost predicate OnePerRing(cycles: seq<Cycle>)
    requires forall x :: x in cycles ==> WellFormed(x)
  {
    forall i, j :: 0 <= i < j < |cycles| ==> !SameRing(Edges(cycles[i]), Edges(cycles[j]))
  }

  /** What is kept has one cycle a ring, and covers every ring of the input. */
  lemma {:induction false} KeptCovers(cycles: seq<Cycle>)
    requires forall x :: x in cycles ==> WellFormed(x)
    ensures OnePerRing(Kept(cycles))
    ensures forall c :: c in cycles ==> Seen(Kept(cycles), c)
  {
    hide SameRing, WellFormed, Seen, OnePerRing;
    if cycles == [] {
      NoneOnePerRing();
    } else {
      var earlier, c := cycles[..|cycles| - 1], cycles[|cycles| - 1];
      assert cycles == earlier + [c];
      var kept := Kept(earlier);
      assert Kept(cycles) == if Seen(earlier, c) then kept else kept + [c];
      hide Kept;
      KeptCovers(earlier);
      if Seen(earlier, c) {
        SeenThroughKept(earlier, kept, c);
      } else {
        KeepOne(earlier, kept, c);
        SeenItself(kept, c);
        forall x | x in earlier
          ensures Seen(kept + [c], x)
        {
          SeenMore(kept, c, x);
        }
      }
    }
  }

  lemma NoneOnePerRing()
    ensures OnePerRing([])
  {
  }

  lemma SeenThroughKept(earlier: seq<Cycle>, kept: seq<Cycle>, c: Cycle)
    requires WellFormed(c) && (forall x :: x in earlier ==> WellFormed(x)) && (forall x :: x in kept ==> x in earlier)
    requires forall x :: x in earlier ==> Seen(kept, x)
    requires Seen(earlier, c)
    ensures Seen(kept, c)
  {
    hide SameRing, WellFormed;
    var x :| x in earlier && SameRing(Edges(x), Edges(c));
    var y :| y in kept && SameRing(Edges(y), Edges(x));
    SameRingTransitive(Edges(y), Edges(x), Edges(c));
  }

  lemma SeenMore(kept: seq<Cycle>, c: Cycle, x: Cycle)
    requires WellFormed(c) && WellFormed(x) && (forall y :: y in kept ==> WellFormed(y))
    requires Seen(kept, x)
    ensures Seen(kept + [c], x)
  {
    hide SameRing, WellFormed;
    var y :| y in kept && SameRing(Edges(y), Edges(x));
    assert y in kept + [c];
  }

  lemma SeenItself(kept: seq<Cycle>, c: Cycle)
    requires WellFormed(c) && (forall y :: y in kept ==> WellFormed(y))
    ensures Seen(kept + [c], c)
  {
    hide SameRing, WellFormed;
    SameRingReflexive(Edges(c));
    assert c in kept + [c];
  }

  lemma KeepOne(earlier: seq<Cycle>, kept: seq<Cycle>, c: Cycle)
    requires WellFormed(c) && (forall x :: x in earlier ==> WellFormed(x)) && (forall x :: x in kept ==> x in earlier)
    requires OnePerRing(kept) && !Seen(earlier, c)
    ensures OnePerRing(kept + [c])
  {
    hide SameRing, WellFormed;
    forall i | 0 <= i < |kept|
      ensures !SameRing(Edges(kept[i]), Edges(c))
    {
      assert kept[i] in earlier;
    }
  }

  // ---- rings ----

  /** The pool trades one token for the other, in either direction. */
  predicate Trades(p: Pool, a: Address, b: Address) {
    (p.token0 == a && p.token1 == b) || (p.token1 == a && p.token0 == b)
  }

  /** A directed closed walk over two or three pools, no pool twice. */
  predicate Walk(c: Cycle) {
    && |c.pools| in {2, 3} && WellFormed(c)
    && (forall i :: 0 <= i < |c.pools| ==> Trades(c.pools[i], c.tokens[i], c.tokens[i + 1]))
    && c.tokens[|c.pools|] == c.tokens[0]
    && (forall i, j :: 0 <= i < j < |c.pools| ==> c.pools[i].address != c.pools[j].address)
  }

  predicate Ring(c: Cycle, pools: Pools, affected: set<Address>, maxHops: int) {
    && Walk(c) && Registered(c, pools)
    && (|c.pools| == 3 ==> maxHops >= 3)
    && exists i :: 0 <= i < |c.pools| && c.pools[i].address in affected
  }

  predicate Degenerate(p: Pool) {
    p.token0 == p.token1
  }

  /** Position i is in the affected set, and the hop that leads back to it really trades. */
  predicate Entry(c: Cycle, affected: set<Address>, i: nat)
    requires |c.pools| in {2, 3} && i < |c.pools|
  {
    c.pools[i].address in affected && (|c.pools| == 3 ==> !Degenerate(c.pools[(i + 2) % 3]))
  }

  ghost predicate Enterable(c: Cycle, affected: set<Address>)
    requires |c.pools| in {2, 3}
  {
    exists i :: 0 <= i < |c.pools| && Entry(c, affected, i)
  }

  lemma OtherTrades(p: Pool, a: Address, b: Address)
    ensures Other(p, a) == Some(b) <==> Trades(p, a, b)
    ensures Trades(p, a, b) ==> (a == b <==> Degenerate(p))
  {
  }

  lemma FoundIsRing(c: Cycle, pools: Pools, affected: set<Address>, maxHops: int)
    requires Enumerated(c, pools, affected, maxHops)
    ensures Ring(c, pools, affected, maxHops) && Entry(c, affected, 0)
  {
    hide Other, Registered, Trades, Degenerate;
    OtherTrades(c.pools[0], c.tokens[0], c.tokens[1]);
    OtherTrades(c.pools[1], c.tokens[1], c.tokens[2]);
    if |c.pools| == 3 {
      OtherTrades(c.pools[2], c.tokens[2], c.tokens[3]);
    }
  }

  lemma EntryIsFound(c: Cycle, pools: Pools, affected: set<Address>, maxHops: int)
    requires Ring(c, pools, affected, maxHops) && Entry(c, affected, 0)
    ensures Enumerated(c, pools, affected, maxHops)
  {
    hide Other, Registered, Trades, Degenerate;
    OtherTrades(c.pools[0], c.tokens[0], c.tokens[1]);
    OtherTrades(c.pools[1], c.tokens[1], c.tokens[2]);
    if |c.pools| == 3 {
      OtherTrades(c.pools[2], c.tokens[2], c.tokens[3]);
    }
  }

  /** The same walk, entered at hop i. */
  function Turned(c: Cycle, i: nat): (d: Cycle)
    requires WellFormed(c) && i < |c.pools|
    ensures |d.pools| == |c.pools| && WellFormed(d)
  {
    Cycle(c.pools[i..] + c.pools[..i], c.tokens[i..|c.pools|] + c.tokens[..i + 1])
  }

  lemma TurnedParts(c: Cycle, i: nat, k: nat)
    requires Walk(c) && i < |c.pools| && k < |c.pools|
    ensures var n := |c.pools|;
            var at := if i + k < n then i + k else i + k - n;
            && Turned(c, i).pools[k] == c.pools[at]
            && Turned(c, i).tokens[k] == c.tokens[at]
            && Turned(c, i).tokens[k + 1] == c.tokens[at + 1]
            && Edges(Turned(c, i))[k] == Edges(c)[at]
  {
    hide Trades;
  }

  lemma TurnedRotates(c: Cycle, i: nat)
    requires Walk(c) && i < |c.pools|
    ensures Edges(Turned(c, i)) == Rotate(Edges(c), i)
  {
    hide Trades, Turned;
    var n := |c.pools|;
    forall k | 0 <= k < n
      ensures Edges(Turned(c, i))[k] == Rotate(Edges(c), i)[k]
    {
      TurnedParts(c, i, k);
    }
  }

  lemma TurnedDistinct(c: Cycle, i: nat)
    requires Walk(c) && i < |c.pools|
    ensures Walk(Turned(c, i))
  {
    hide Trades, Turned;
    TurnedParts(c, i, 0);
    TurnedParts(c, i, 1);
    if |c.pools| == 3 {
      TurnedParts(c, i, 2);
    }
  }

  /** Hop k of the walk comes back in the turned walk. */
  lemma TurnedHolds(c: Cycle, i: nat, k: nat)
    requires Walk(c) && i < |c.pools| && k < |c.pools|
    ensures exists m :: 0 <= m < |c.pools| && Turned(c, i).pools[m] == c.pools[k]
  {
    hide Turned, Trades;
    var m := if k >= i then k - i else k - i + |c.pools|;
    TurnedParts(c, i, m);
    assert Turned(c, i).pools[m] == c.pools[k];
  }

  lemma TurnedRegistered(c: Cycle, i: nat, pools: Pools)
    requires Walk(c) && i < |c.pools| && Registered(c, pools)
    ensures Registered(Turned(c, i), pools)
  {
    hide Turned, Trades;
    forall m | 0 <= m < |c.pools|
      ensures Turned(c, i).pools[m] in c.pools
    {
      TurnedParts(c, i, m);
    }
  }

  lemma TurnedEntry(c: Cycle, i: nat, affected: set<Address>)
    requires Walk(c) && i < |c.pools|
    ensures Entry(Turned(c, i), affected, 0) <==> Entry(c, affected, i)
  {
    hide Turned, Trades, Degenerate;
    TurnedParts(c, i, 0);
    if |c.pools| == 3 {
      TurnedParts(c, i, 2);
    }
  }

  /** Entering a ring elsewhere gives the ring again, and its entries are the same hops. */
  lemma TurnedRing(c: Cycle, i: nat, pools: Pools, affected: set<Address>, maxHops: int)
    requires Ring(c, pools, affected, maxHops) && i < |c.pools|
    ensures Ring(Turned(c, i), pools, affected, maxHops)
    ensures Entry(Turned(c, i), affected, 0) <==> Entry(c, affected, i)
  {
    hide Turned, Walk, Entry, Registered;
    TurnedDistinct(c, i);
    TurnedRegistered(c, i, pools);
    TurnedEntry(c, i, affected);
    var k :| 0 <= k < |c.pools| && c.pools[k].address in affected;
    TurnedHolds(c, i, k);
  }

  /** Cycles with the same edges over the same registry are the same cycle. */
  lemma EdgesDetermine(c: Cycle, d: Cycle, pools: Pools)
    requires Walk(c) && Walk(d) && Registered(c, pools) && Registered(d, pools) && Edges(c) == Edges(d)
    ensures c == d
  {
    hide Trades;
    assert |Edges(c)| == |Edges(d)|;
    forall i | 0 <= i < |c.pools|
      ensures c.pools[i] == d.pools[i] && c.tokens[i] == d.tokens[i]
    {
      assert Edges(c)[i] == Edges(d)[i];
    }
    assert c.tokens[|c.pools|] == d.tokens[|d.pools|];
    assert c.pools == d.pools && c.tokens == d.tokens;
  }

  /** The search finds some entry point of a ring exactly when the ring can be entered at an affected pool. */
  lemma RingFoundExactly(w: Cycle, pools: Pools, affected: set<Address>, maxHops: int)
    requires Ring(w, pools, affected, maxHops)
    ensures (exists c :: Enumerated(c, pools, affected, maxHops) && SameRing(Edges(w), Edges(c)))
            <==> Enterable(w, affected)
  {
    assert forall c :: Enumerated(c, pools, affected, maxHops) ==> WellFormed(c);
    hide Trades, Turned, Entry, Enumerated, Rotate, Ring, Registered;
    assert Walk(w) && Registered(w, pools) by { RingIsWalk(w, pools, affected, maxHops); }
    if Enterable(w, affected) {
      var i :| 0 <= i < |w.pools| && Entry(w, affected, i);
      TurnedRing(w, i, pools, affected, maxHops);
      EntryIsFound(Turned(w, i), pools, affected, maxHops);
      TurnedRotates(w, i);
      assert SameRing(Edges(w), Edges(Turned(w, i)));
    }
    forall c | Enumerated(c, pools, affected, maxHops) && SameRing(Edges(w), Edges(c))
      ensures Enterable(w, affected)
    {
      FoundIsEntry(w, c, pools, affected, maxHops);
    }
  }

  lemma FoundIsEntry(w: Cycle, c: Cycle, pools: Pools, affected: set<Address>, maxHops: int)
    requires Ring(w, pools, affected, maxHops) && Enumerated(c, pools, affected, maxHops)
    requires SameRing(Edges(w), Edges(c))
    ensures Enterable(w, affected)
  {
    FoundIsRing(c, pools, affected, maxHops);
    RingIsWalk(c, pools, affected, maxHops);
    RingIsWalk(w, pools, affected, maxHops);
    hide Trades, Turned, Entry, Enumerated, Rotate, Registered;
    var e := Edges(w);
    var j :| 0 <= j <= |e| && Edges(c) == Rotate(e, j);
    var i := if j == |w.pools| then 0 else j;
    RotateAll(e);
    RotateNone(e);
    assert Rotate(e, i) == Rotate(e, j);
    TurnedRotates(w, i);
    TurnedRing(w, i, pools, affected, maxHops);
    RingIsWalk(Turned(w, i), pools, affected, maxHops);
    EdgesDetermine(c, Turned(w, i), pools);
    assert Entry(w, affected, i);
  }

  lemma RingIsWalk(c: Cycle, pools: Pools, affected: set<Address>, maxHops: int)
    requires Ring(c, pools, affected, maxHops)
    ensures Walk(c) && Registered(c, pools)
  {
  }

  // ---- main results ----

  /** The list holds what the search enumerates. */
  ghost predicate Lists(cycles: seq<Cycle>, pools: Pools, affected: set<Address>, maxHops: int) {
    forall c :: c in cycles <==> Enumerated(c, pools, affected, maxHops)
  }

  /**
   Everything reported is a ring of registered pools through the affected set, no ring is reported
   twice, and a ring is reported exactly when it can be entered at an affected pool.
   */
  ghost predicate ReportsRings(out: seq<Cycle>, pools: Pools, affected: set<Address>, maxHops: int) {
    && (forall c :: c in out ==> WellFormed(c) && Ring(c, pools, affected, maxHops))
    && OnePerRing(out)
    && (forall w :: Ring(w, pools, affected, maxHops) ==> (Seen(out, w) <==> Enterable(w, affected)))
  }

  /** Enumeration and dedup of the rings through the affected set. */
  method RingsToEvaluate(graph: LivePoolGraph, affected: seq<Address>, maxHops: int) returns (out: seq<Cycle>)
    requires graph.Valid()
    ensures ReportsRings(out, graph.pools, (set a | a in affected), maxHops)
  {
    hide Enumerated, Kept, WellFormed, ReportsRings;
    var cycles := graph.CyclesForAffected(affected, maxHops);
    assert Lists(cycles, graph.pools, (set a | a in affected), maxHops);
    FoundWellFormed(cycles, graph.pools, (set a | a in affected), maxHops);
    out := DedupCycles(cycles);
    RingsReportedExactly(cycles, graph.pools, (set a | a in affected), maxHops);
  }

  lemma FoundWellFormed(cycles: seq<Cycle>, pools: Pools, affected: set<Address>, maxHops: int)
    requires Lists(cycles, pools, affected, maxHops)
    ensures forall c :: c in cycles ==> WellFormed(c)
  {
  }

  lemma RingsReportedExactly(cycles: seq<Cycle>, pools: Pools, affected: set<Address>, maxHops: int)
    requires Lists(cycles, pools, affected, maxHops)
    ensures forall c :: c in cycles ==> WellFormed(c)
    ensures ReportsRings(Kept(cycles), pools, affected, maxHops)
  {
    FoundWellFormed(cycles, pools, affected, maxHops);
    hide Kept, OnePerRing, Seen, Enumerated, Found, Enterable, Entry;
    KeptCovers(cycles);
    forall c | c in Kept(cycles)
      ensures WellFormed(c) && Ring(c, pools, affected, maxHops)
    {
      FoundIsRing(c, pools, affected, maxHops);
    }
    forall w | Ring(w, pools, affected, maxHops)
      ensures Seen(Kept(cycles), w) <==> Enterable(w, affected)
    {
      RingIsWalk(w, pools, affected, maxHops);
      if Enterable(w, affected) {
        EnterableIsReported(cycles, w, pools, affected, maxHops);
      }
      if Seen(Kept(cycles), w) {
        ReportedIsEnterable(cycles, w, pools, affected, maxHops);
      }
    }
  }

  lemma EnterableIsReported(cycles: seq<Cycle>, w: Cycle, pools: Pools, affected: set<Address>, maxHops: int)
    requires Lists(cycles, pools, affected, maxHops) && Ring(w, pools, affected, maxHops)
    requires forall c :: c in cycles ==> WellFormed(c)
    requires Enterable(w, affected)
    ensures Seen(Kept(cycles), w)
  {
    hide Kept, OnePerRing, SameRing, Enterable, Entry, Registered, Enumerated, Trades, Edges;
    RingFoundExactly(w, pools, affected, maxHops);
    RingIsWalk(w, pools, affected, maxHops);
    hide Ring, Walk, WellFormed;
    var c :| Enumerated(c, pools, affected, maxHops) && SameRing(Edges(w), Edges(c));
    KeptCovers(cycles);
    SameRingSymmetric(Edges(w), Edges(c));
    var x :| x in Kept(cycles) && SameRing(Edges(x), Edges(c));
    SameRingTransitive(Edges(x), Edges(c), Edges(w));
  }

  lemma ReportedIsEnterable(cycles: seq<Cycle>, w: Cycle, pools: Pools, affected: set<Address>, maxHops: int)
    requires Lists(cycles, pools, affected, maxHops) && Ring(w, pools, affected, maxHops)
    requires forall c :: c in cycles ==> WellFormed(c)
    requires Seen(Kept(cycles), w)
    ensures Enterable(w, affected)
  {
    hide Kept, OnePerRing, SameRing, Enterable, Entry, Registered, Enumerated, Trades, Edges;
    RingFoundExactly(w, pools, affected, maxHops);
    RingIsWalk(w, pools, affected, maxHops);
    hide Ring, Walk, WellFormed;
    var x :| x in Kept(cycles) && SameRing(Edges(x), Edges(w));
    SameRingSymmetric(Edges(x), Edges(w));
  }

  /** The one place of a list that holds a ring. */
  ghost predicate OnlyAt(out: seq<Cycle>, i: nat, w: Cycle)
    requires WellFormed(w) && i < |out| && forall c :: c in out ==> WellFormed(c)
  {
    SameRing(Edges(out[i]), Edges(w))
    && forall j :: 0 <= j < |out| && j != i ==> !SameRing(Edges(out[j]), Edges(w))
  }

  /** With no pool that trades a token for itself, every ring is reported, exactly once. */
  lemma EveryRingOnce(out: seq<Cycle>, pools: Pools, affected: set<Address>, maxHops: int, w: Cycle)
    requires ReportsRings(out, pools, affected, maxHops) && Ring(w, pools, affected, maxHops)
    requires forall a :: a in pools ==> !Degenerate(pools[a])
    ensures exists i :: 0 <= i < |out| && OnlyAt(out, i, w)
  {
    var k :| 0 <= k < |w.pools| && w.pools[k].address in affected;
    hide SameRing, Trades, OnePerRing, Degenerate, OnlyAt;
    assert Entry(w, affected, k);
    hide Ring, Walk, Entry, Registered, WellFormed;
    var x :| x in out && SameRing(Edges(x), Edges(w));
    var i :| 0 <= i < |out| && out[i] == x;
    OnlyOne(out, i, w);
  }

  lemma OnlyOne(out: seq<Cycle>, i: nat, w: Cycle)
    requires WellFormed(w) && forall c :: c in out ==> WellFormed(c)
    requires OnePerRing(out) && i < |out| && SameRing(Edges(out[i]), Edges(w))
    ensures OnlyAt(out, i, w)
  {
    hide SameRing, WellFormed;
    forall j | 0 <= j < |out| && j != i && SameRing(Edges(out[j]), Edges(w))
      ensures false
    {
      SameRingSymmetric(Edges(out[i]), Edges(w));
      SameRingSymmetric(Edges(out[j]), Edges(w));
      SameRingTransitive(Edges(out[i]), Edges(w), Edges(out[j]));
      SameRingTransitive(Edges(out[j]), Edges(w), Edges(out[i]));
    }
  }

  // ---- directions ----

  function Reverse(c: Cycle): (d: Cycle)
    requires WellFormed(c)
    ensures WellFormed(d) && |d.pools| == |c.pools|
    ensures forall i :: 0 <= i < |c.pools| ==> d.pools[i] == c.pools[|c.pools| - 1 - i]
    ensures forall i :: 0 <= i < |c.tokens| ==> d.tokens[i] == c.tokens[|c.tokens| - 1 - i]
  {
    var n := |c.pools|;
    Cycle(seq(n, i requires 0 <= i < n => c.pools[n - 1 - i]), seq(n + 1, i requires 0 <= i < n + 1 => c.tokens[n - i]))
  }

  lemma ReverseHop(c: Cycle, i: nat)
    requires Walk(c) && i < |c.pools|
    ensures Trades(Reverse(c).pools[i], Reverse(c).tokens[i], Reverse(c).tokens[i + 1])
    ensures Reverse(c).pools[i] == c.pools[|c.pools| - 1 - i]
  {
    hide Reverse;
    var k := |c.pools| - 1 - i;
    assert Trades(c.pools[k], c.tokens[k], c.tokens[k + 1]);
  }

  lemma ReverseIsRing(c: Cycle, pools: Pools, affected: set<Address>, maxHops: int)
    requires Ring(c, pools, affected, maxHops)
    ensures Ring(Reverse(c), pools, affected, maxHops)
  {
    hide Trades, Reverse;
    var n := |c.pools|;
    var k :| 0 <= k < n && c.pools[k].address in affected;
    ReverseHop(c, 0);
    ReverseHop(c, 1);
    if n == 3 {
      ReverseHop(c, 2);
    }
    ReverseHop(c, n - 1 - k);
  }

  /** The way back is no rotation of the way there. */
  lemma ReverseIsAnotherRing(c: Cycle)
    requires Walk(c) && !Degenerate(c.pools[0])
    ensures !SameRing(Edges(c), Edges(Reverse(c)))
  {
    hide Reverse;
    var e, f, n := Edges(c), Edges(Reverse(c)), |c.pools|;
    assert f[n - 1] == Edge(c.pools[0].address, c.tokens[1], c.tokens[0]);
    assert c.tokens[0] != c.tokens[1];
    hide Trades, Degenerate;
    forall i | 0 <= i <= |e|
      ensures f != Rotate(e, i)
    {
      var k := if i == 0 then n - 1 else i - 1;
      assert Rotate(e, i)[n - 1] == e[k];
      assert e[k].pool == c.pools[k].address;
    }
  }

  /** A ring and its reverse are both reported, in two places. */
  lemma DirectionsKeptApart(out: seq<Cycle>, pools: Pools, affected: set<Address>, maxHops: int, w: Cycle)
    requires ReportsRings(out, pools, affected, maxHops) && Ring(w, pools, affected, maxHops)
    requires forall a :: a in pools ==> !Degenerate(pools[a])
    ensures exists i, j :: 0 <= i < |out| && 0 <= j < |out| && i != j && OnlyAt(out, i, w) && OnlyAt(out, j, Reverse(w))
  {
    assert !Degenerate(w.pools[0]);
    hide SameRing, Trades, OnePerRing, Degenerate, Reverse;
    EveryRingOnce(out, pools, affected, maxHops, w);
    ReverseIsRing(w, pools, affected, maxHops);
    EveryRingOnce(out, pools, affected, maxHops, Reverse(w));
    ReverseIsAnotherRing(w);
    hide ReportsRings, Ring, Walk, WellFormed;
    var i :| 0 <= i < |out| && OnlyAt(out, i, w);
    var j :| 0 <= j < |out| && OnlyAt(out, j, Reverse(w));
    if i == j {
      SameRingSymmetric(Edges(out[i]), Edges(w));
      SameRingTransitive(Edges(w), Edges(out[i]), Edges(Reverse(w)));
    }
  }

  /** A registry with a pool that trades token 7 for itself, and a ring over it from token 7 to 8 and back. */
  function SelfTrading(): Pools {
    map[1 := Pool(1, 7, 8, "v", "t", None, None), 2 := Pool(2, 7, 8, "v", "t", None, None),
        3 := Pool(3, 7, 7, "v", "t", None, None)]
  }

  function RingThroughSelfTrade(): Cycle {
    Cycle([SelfTrading()[1], SelfTrading()[2], SelfTrading()[3]], [7, 8, 7, 7])
  }

  /**
   Without that condition a ring can go unreported: its only affected pool is reached by the hop that trades nothing.
   */
  lemma SelfTradeHidesRing()
    ensures Ring(RingThroughSelfTrade(), SelfTrading(), {1}, 3)
    ensures forall out :: ReportsRings(out, SelfTrading(), {1}, 3) ==> !Seen(out, RingThroughSelfTrade())
  {
    hide SameRing, Rotate;
    var w := RingThroughSelfTrade();
    assert w.pools[0].address in {1};
    assert !Enterable(w, {1});
  }
}
