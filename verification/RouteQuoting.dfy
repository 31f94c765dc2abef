/**
 Quoting a route for many input sizes: size by size along the route, or hop by hop for all sizes at
 once. Both are compared under one fixed quoter for the hops of the route.
 */
module RouteQuoting {
  import opened Bytes
  import opened SortedSets

  datatype Quote = Quote(amountIn: nat, amountOut: nat, gas: Option<nat>)

  /** What the chain and an adapter make of an exact-input quote: the call can fail, and so can reading its result. */
  datatype Outcome = CallFailed | DecodeFailed | Quoted(quote: Quote)

  /** The answer for a hop of the route and an input amount. */
  type Quoter = (nat, nat) -> Outcome

  type Chain = (nat, seq<Quote>)

  type QuoteTable = map<nat, Chain>

  function SizesOf(sizes: seq<nat>): set<nat> {
    set a | a in sizes
  }

  // ---- specifications ----

  /** The first k hops from an input size: the amount that comes out and the quotes on the way. */
  function ChainQuote(q: Quoter, size: nat, k: nat): (r: Option<Chain>)
    ensures r.Some? ==> |r.value.1| == k
  {
    if k == 0 then Some((size, []))
    else
      match ChainQuote(q, size, k - 1)
      case None => None
      case Some(c) =>
        match q(k - 1, c.0)
        case CallFailed => None
        case DecodeFailed => None
        case Quoted(quote) => Some((quote.amountOut, c.1 + [quote]))
  }

  /** Every quote repeats the amount it was asked for. */
  predicate Echoes(q: Quoter, size: nat, k: nat) {
    if k == 0 then true
    else
      Echoes(q, size, k - 1)
      && (ChainQuote(q, size, k - 1).Some? && q(k - 1, ChainQuote(q, size, k - 1).value.0).Quoted?
          ==> q(k - 1, ChainQuote(q, size, k - 1).value.0).quote.amountIn == ChainQuote(q, size, k - 1).value.0)
  }

  lemma {:induction false} ChainStaysBroken(q: Quoter, size: nat, k: nat, hops: nat)
    requires k <= hops && (ChainQuote(q, size, k).None? || !Echoes(q, size, k))
    ensures ChainQuote(q, size, hops).None? || !Echoes(q, size, hops)
    ensures ChainQuote(q, size, k).None? ==> ChainQuote(q, size, hops).None?
  {
    if k < hops {
      ChainStaysBroken(q, size, k, hops - 1);
    }
  }

  lemma StepChain(q: Quoter, size: nat, k: nat)
    requires ChainQuote(q, size, k).Some?
    ensures var c := ChainQuote(q, size, k).value;
            ChainQuote(q, size, k + 1)
            == match q(k, c.0)
               case CallFailed => None
               case DecodeFailed => None
               case Quoted(quote) => Some((quote.amountOut, c.1 + [quote]))
  {
  }

  /** What hop i is asked: the size itself, then the output of the quote before. */
  function InputAt(size: nat, quotes: seq<Quote>, i: nat): nat
    requires i <= |quotes|
  {
    if i == 0 then size else quotes[i - 1].amountOut
  }

  /** One quote a hop, each the answer to the output of the one before, and the last output at the end. */
  ghost predicate Linked(q: Quoter, size: nat, k: nat, c: Chain) {
    && |c.1| == k && c.0 == InputAt(size, c.1, k)
    && forall i {:trigger InputAt(size, c.1, i)} :: 0 <= i < k ==> q(i, InputAt(size, c.1, i)) == Quoted(c.1[i])
  }

  /** More quotes at the end change nothing before. */
  lemma InputsStay(size: nat, quotes: seq<Quote>, quote: Quote)
    ensures InputAt(size, quotes + [quote], |quotes| + 1) == quote.amountOut
    ensures forall i :: 0 <= i <= |quotes| ==> InputAt(size, quotes + [quote], i) == InputAt(size, quotes, i)
    ensures forall i :: 0 <= i < |quotes| ==> (quotes + [quote])[i] == quotes[i]
  {
  }

  lemma LinkedNext(q: Quoter, size: nat, k: nat, c: Chain, quote: Quote)
    requires |c.1| == k && c.0 == InputAt(size, c.1, k)
    ensures Linked(q, size, k + 1, (quote.amountOut, c.1 + [quote]))
            <==> Linked(q, size, k, c) && q(k, c.0) == Quoted(quote)
  {
    InputsStay(size, c.1, quote);
    hide InputAt;
    var more := c.1 + [quote];
    assert more[k] == quote;
    if Linked(q, size, k + 1, (quote.amountOut, more)) {
      forall i | 0 <= i < k
        ensures q(i, InputAt(size, c.1, i)) == Quoted(c.1[i])
      {
        assert q(i, InputAt(size, more, i)) == Quoted(more[i]);
      }
      assert q(k, InputAt(size, more, k)) == Quoted(more[k]);
    }
  }

  /** The recursive chain is exactly the linked list of quotes; there is only one. */
  lemma {:induction false} ChainLinksExactly(q: Quoter, size: nat, k: nat, c: Chain)
    ensures ChainQuote(q, size, k) == Some(c) <==> Linked(q, size, k, c)
  {
    if k > 0 {
      if ChainQuote(q, size, k) == Some(c) {
        ChainIsLinked(q, size, k, c);
      }
      if Linked(q, size, k, c) {
        LinkedIsChain(q, size, k, c);
      }
    } else if |c.1| == 0 {
      assert c.1 == [];
    }
  }

  lemma {:induction false} ChainIsLinked(q: Quoter, size: nat, k: nat, c: Chain)
    requires ChainQuote(q, size, k) == Some(c)
    ensures Linked(q, size, k, c)
  {
    if k > 0 {
      var d := ChainQuote(q, size, k - 1).value;
      ChainIsLinked(q, size, k - 1, d);
      assert d.0 == InputAt(size, d.1, k - 1) && |d.1| == k - 1;
      hide Linked;
      LinkedNext(q, size, k - 1, d, c.1[k - 1]);
    }
  }

  lemma {:induction false} LinkedIsChain(q: Quoter, size: nat, k: nat, c: Chain)
    requires Linked(q, size, k, c)
    ensures ChainQuote(q, size, k) == Some(c)
  {
    if k > 0 {
      var before, quote := c.1[..k - 1], c.1[k - 1];
      assert c.1 == before + [quote] && c.0 == quote.amountOut;
      hide Linked, InputAt, ChainQuote;
      var d := (InputAt(size, before, k - 1), before);
      LinkedNext(q, size, k - 1, d, quote);
      LinkedIsChain(q, size, k - 1, d);
      StepChain(q, size, k - 1);
    } else {
      assert c.1 == [];
    }
  }

  // ---- size by size ----

  /** _quote_cycle; None where it raises. */
  method QuoteCycle(q: Quoter, hops: nat, size: nat) returns (r: Option<Chain>)
    ensures r == if Echoes(q, size, hops) then ChainQuote(q, size, hops) else None
  {
    var amount := size;
    var quotes: seq<Quote> := [];
    for index := 0 to hops
      invariant Echoes(q, size, index) && ChainQuote(q, size, index) == Some((amount, quotes))
    {
      var answer := q(index, amount);
      if !answer.Quoted? || answer.quote.amountIn != amount {
        ChainStaysBroken(q, size, index + 1, hops);
        return None;
      }
      amount := answer.quote.amountOut;
      quotes := quotes + [answer.quote];
    }
    return Some((amount, quotes));
  }

  /** The route quotes this size through; only size-by-size quoting looks at the echoed amounts. */
  predicate Quotes(q: Quoter, hops: nat, batched: bool, size: nat) {
    ChainQuote(q, size, hops).Some? && (batched || Echoes(q, size, hops))
  }

  /** The table holds exactly the sizes that quote through, each with its output and its quotes. */
  ghost predicate Tabulates(table: QuoteTable, q: Quoter, hops: nat, batched: bool, sizes: set<nat>) {
    forall a :: (a in table <==> a in sizes && Quotes(q, hops, batched, a))
                && (a in table ==> Some(table[a]) == ChainQuote(q, a, hops))
  }

  predicate AllQuote(q: Quoter, hops: nat, batched: bool, sizes: set<nat>) {
    forall a :: a in sizes ==> Quotes(q, hops, batched, a)
  }

  /** One more size: a row if it quotes through, else a failure. */
  lemma OneMoreSize(
      q: Quoter, hops: nat, batched: bool, sizes: set<nat>, table: QuoteTable, size: nat, r: Option<Chain>)
    requires Tabulates(table, q, hops, batched, sizes)
    requires r == if Quotes(q, hops, batched, size) then ChainQuote(q, size, hops) else None
    ensures Tabulates(if r.Some? then table[size := r.value] else table, q, hops, batched, sizes + {size})
    ensures AllQuote(q, hops, batched, sizes + {size}) <==> AllQuote(q, hops, batched, sizes) && r.Some?
  {
    hide ChainQuote, Echoes;
  }

  lemma SizesGrow(sizes: seq<nat>, i: nat)
    requires i < |sizes|
    ensures SizesOf(sizes[..i + 1]) == SizesOf(sizes[..i]) + {sizes[i]}
  {
    assert sizes[..i + 1] == sizes[..i] + [sizes[i]];
  }

  lemma NoSizes(q: Quoter, hops: nat, batched: bool)
    ensures Tabulates(map[], q, hops, batched, SizesOf([])) && AllQuote(q, hops, batched, SizesOf([]))
  {
  }

  /** _parallel_quotes, with the calls in the order their results are read. */
  method ParallelQuotes(q: Quoter, hops: nat, sizes: seq<nat>) returns (table: QuoteTable, failures: nat)
    ensures Tabulates(table, q, hops, false, SizesOf(sizes))
    ensures failures == 0 <==> AllQuote(q, hops, false, SizesOf(sizes))
  {
    hide ChainQuote, Echoes, Tabulates, AllQuote, SizesOf;
    table, failures := map[], 0;
    NoSizes(q, hops, false);
    assert sizes[..0] == [];
    for i := 0 to |sizes|
      invariant Tabulates(table, q, hops, false, SizesOf(sizes[..i]))
      invariant failures == 0 <==> AllQuote(q, hops, false, SizesOf(sizes[..i]))
    {
      var r := QuoteCycle(q, hops, sizes[i]);
      SizesGrow(sizes, i);
      OneMoreSize(q, hops, false, SizesOf(sizes[..i]), table, sizes[i], r);
      match r {
        case None => failures := failures + 1;
        case Some(c) => table := table[sizes[i] := c];
      }
    }
    assert sizes[..|sizes|] == sizes;
  }

  // ---- hop by hop ----

  /** The surviving indexes, in order: those whose sizes get through the first k hops. */
  ghost predicate Survive(q: Quoter, sizes: seq<nat>, k: nat, surviving: seq<nat>) {
    && Ascending(surviving)
    && (forall i: nat :: i in surviving <==> i < |sizes| && ChainQuote(q, sizes[i], k).Some?)
  }

  /** What the two dictionaries hold for indexes that got through k hops. */
  ghost predicate Tracks(q: Quoter, sizes: seq<nat>, k: nat, current: map<nat, nat>, quotes: map<nat, seq<Quote>>,
                         indexes: seq<nat>) {
    forall i: nat :: i in indexes ==>
      i < |sizes| && i in current && i in quotes && ChainQuote(q, sizes[i], k) == Some((current[i], quotes[i]))
  }

  /** Among the first n survivors of a hop, those that get one hop further. */
  ghost predicate Advanced(q: Quoter, sizes: seq<nat>, hop: nat, surviving: seq<nat>, n: nat, next: seq<nat>)
    requires n <= |surviving|
  {
    && Ascending(next)
    && (forall i: nat :: i in next <==> i in surviving[..n] && i < |sizes| && ChainQuote(q, sizes[i], hop + 1).Some?)
  }

  /** None of the first n survivors was lost. */
  predicate AllKept(surviving: seq<nat>, n: nat, next: seq<nat>)
    requires n <= |surviving|
  {
    forall i :: i in surviving[..n] ==> i in next
  }

  lemma KeepOne(surviving: seq<nat>, n: nat, next: seq<nat>)
    requires n < |surviving| && surviving[n] !in next && surviving[n] !in surviving[..n]
    ensures !AllKept(surviving, n + 1, next)
    ensures AllKept(surviving, n + 1, next + [surviving[n]]) <==> AllKept(surviving, n, next)
  {
    UpTo(surviving, n);
  }

  /** One round: every surviving size asks the next hop. */
  method AdvanceHop(
      q: Quoter, sizes: seq<nat>, hop: nat, current0: map<nat, nat>, quotes0: map<nat, seq<Quote>>, surviving: seq<nat>)
    returns (current: map<nat, nat>, quotes: map<nat, seq<Quote>>, next: seq<nat>, failures: nat)
    requires Survive(q, sizes, hop, surviving)
    requires Tracks(q, sizes, hop, current0, quotes0, surviving)
    ensures Survive(q, sizes, hop + 1, next)
    ensures Tracks(q, sizes, hop + 1, current, quotes, next)
    ensures failures == 0 <==> forall i :: i in surviving ==> i in next
    ensures forall i :: i in next ==> i in surviving
    ensures forall i :: i in surviving ==> i < |sizes|
  {
    assert Ascending(surviving);
    hide ChainQuote, Tracks, Advanced, Survive, Ascending, AllKept;
    current, quotes, next, failures := current0, quotes0, [], 0;
    assert surviving[0..] == surviving;
    BeforeRound(q, sizes, hop, current, quotes, surviving);
    AllKeptAtEnd(surviving, []);
    for n := 0 to |surviving|
      invariant Advanced(q, sizes, hop, surviving, n, next)
      invariant failures == 0 <==> AllKept(surviving, n, next)
      invariant Tracks(q, sizes, hop, current, quotes, surviving[n..])
      invariant Tracks(q, sizes, hop + 1, current, quotes, next)
    {
      var i := surviving[n];
      InRound(q, sizes, hop, current, quotes, surviving, n, next);
      OthersDiffer(surviving, n);
      AdvanceOne(q, sizes, hop, surviving, n, next, (current[i], quotes[i]));
      KeepOne(surviving, n, next);
      match q(hop, current[i]) {
        case CallFailed => failures := failures + 1;
        case DecodeFailed => failures := failures + 1;
        case Quoted(quote) =>
          TrackOne(q, sizes, hop, current, quotes, surviving[n + 1..], next, i, quote);
          quotes := quotes[i := quotes[i] + [quote]];
          current := current[i := quote.amountOut];
          next := next + [i];
      }
    }
    AfterRound(q, sizes, hop, surviving, next);
    AllKeptAtEnd(surviving, next);
  }

  lemma AllKeptAtEnd(surviving: seq<nat>, next: seq<nat>)
    ensures AllKept(surviving, 0, next)
    ensures AllKept(surviving, |surviving|, next) <==> forall i :: i in surviving ==> i in next
  {
    assert surviving[..|surviving|] == surviving;
  }

  lemma BeforeRound(
      q: Quoter, sizes: seq<nat>, hop: nat, current: map<nat, nat>, quotes: map<nat, seq<Quote>>, surviving: seq<nat>)
    ensures Advanced(q, sizes, hop, surviving, 0, []) && Tracks(q, sizes, hop + 1, current, quotes, [])
  {
  }

  /** What is known of the survivor whose turn it is. */
  lemma InRound(q: Quoter, sizes: seq<nat>, hop: nat, current: map<nat, nat>, quotes: map<nat, seq<Quote>>,
                surviving: seq<nat>, n: nat, next: seq<nat>)
    requires n < |surviving| && Survive(q, sizes, hop, surviving)
    requires Advanced(q, sizes, hop, surviving, n, next) && Tracks(q, sizes, hop, current, quotes, surviving[n..])
    ensures surviving[n] < |sizes| && surviving[n] in current && surviving[n] in quotes
    ensures ChainQuote(q, sizes[surviving[n]], hop) == Some((current[surviving[n]], quotes[surviving[n]]))
    ensures Tracks(q, sizes, hop, current, quotes, surviving[n + 1..])
    ensures surviving[n] !in next && surviving[n] !in surviving[..n]
  {
    hide ChainQuote;
    var i := surviving[n];
    assert i in surviving[n..] by { assert surviving[n..][0] == i; }
    Later(surviving, n);
    TracksFewer(q, sizes, hop, current, quotes, surviving[n..], surviving[n + 1..]);
    hide Tracks;
    OthersDiffer(surviving, n);
  }

  lemma TracksFewer(q: Quoter, sizes: seq<nat>, k: nat, current: map<nat, nat>, quotes: map<nat, seq<Quote>>,
                    many: seq<nat>, few: seq<nat>)
    requires Tracks(q, sizes, k, current, quotes, many) && forall x :: x in few ==> x in many
    ensures Tracks(q, sizes, k, current, quotes, few)
  {
    hide ChainQuote;
    forall x: nat | x in few
      ensures x < |sizes| && x in current && x in quotes && ChainQuote(q, sizes[x], k) == Some((current[x], quotes[x]))
    {
      assert x in many;
    }
  }

  lemma UpTo(r: seq<nat>, n: nat)
    requires n < |r|
    ensures forall x :: x in r[..n + 1] <==> x in r[..n] || x == r[n]
  {
    assert r[..n + 1] == r[..n] + [r[n]];
  }

  /** A failed quote drops the index; a quote lets it advance. */
  lemma AdvanceOne(q: Quoter, sizes: seq<nat>, hop: nat, surviving: seq<nat>, n: nat, next: seq<nat>, c: Chain)
    requires n < |surviving| && Survive(q, sizes, hop, surviving) && Advanced(q, sizes, hop, surviving, n, next)
    requires surviving[n] < |sizes| && ChainQuote(q, sizes[surviving[n]], hop) == Some(c)
    ensures Advanced(q, sizes, hop, surviving, n + 1,
                     if q(hop, c.0).Quoted? then next + [surviving[n]] else next)
  {
    StepChain(q, sizes[surviving[n]], hop);
    hide ChainQuote;
    UpTo(surviving, n);
    OthersDiffer(surviving, n);
    assert forall m :: 0 <= m < |next| ==> next[m] in next;
  }

  /** Writing the new amount and quote of one index moves its record one hop on and leaves the others alone. */
  lemma TrackOne(q: Quoter, sizes: seq<nat>, hop: nat, current: map<nat, nat>, quotes: map<nat, seq<Quote>>,
                 rest: seq<nat>, next: seq<nat>, i: nat, quote: Quote)
    requires Tracks(q, sizes, hop, current, quotes, rest) && Tracks(q, sizes, hop + 1, current, quotes, next)
    requires i < |sizes| && i in current && i in quotes && i !in rest
    requires ChainQuote(q, sizes[i], hop) == Some((current[i], quotes[i])) && q(hop, current[i]) == Quoted(quote)
    ensures var current', quotes' := current[i := quote.amountOut], quotes[i := quotes[i] + [quote]];
            && Tracks(q, sizes, hop, current', quotes', rest)
            && Tracks(q, sizes, hop + 1, current', quotes', next + [i])
  {
    StepChain(q, sizes[i], hop);
    hide ChainQuote;
  }

  lemma Later(r: seq<nat>, n: nat)
    requires n < |r|
    ensures forall x :: x in r[n + 1..] ==> x in r[n..]
  {
    assert r[n..] == [r[n]] + r[n + 1..];
  }

  lemma OthersDiffer(surviving: seq<nat>, n: nat)
    requires n < |surviving| && Ascending(surviving)
    ensures forall k :: k in surviving[..n] ==> k < surviving[n]
    ensures surviving[n] !in surviving[n + 1..]
  {
  }

  lemma AfterRound(q: Quoter, sizes: seq<nat>, hop: nat, surviving: seq<nat>, next: seq<nat>)
    requires Survive(q, sizes, hop, surviving) && Advanced(q, sizes, hop, surviving, |surviving|, next)
    ensures Survive(q, sizes, hop + 1, next)
    ensures forall i :: i in next ==> i in surviving
    ensures forall i :: i in surviving ==> i < |sizes|
  {
    hide ChainQuote;
    assert surviving[..|surviving|] == surviving;
    forall i: nat | i < |sizes| && ChainQuote(q, sizes[i], hop + 1).Some?
      ensures i in surviving
    {
      ReachedBefore(q, sizes[i], hop);
    }
  }

  lemma ReachedBefore(q: Quoter, size: nat, hop: nat)
    requires ChainQuote(q, size, hop + 1).Some?
    ensures ChainQuote(q, size, hop).Some?
  {
  }

  /** _batched_quotes. */
  method BatchedQuotes(q: Quoter, hops: nat, sizes: seq<nat>) returns (table: QuoteTable, failures: nat)
    ensures Tabulates(table, q, hops, true, SizesOf(sizes))
    ensures failures == 0 <==> AllQuote(q, hops, true, SizesOf(sizes))
  {
    hide ChainQuote, Tracks, Survive, Tabulates, AllQuote, SizesOf;
    var surviving: seq<nat> := seq(|sizes|, (i: nat) requires i < |sizes| => i);
    IndexesHeld(surviving, |sizes|);
    var quotes: map<nat, seq<Quote>> := map i | i in surviving :: [];
    var current: map<nat, nat> := map i | i in surviving :: sizes[i];
    failures := 0;
    AtStart(q, sizes, current, quotes, surviving);
    var hop := 0;
    while hop < hops
      invariant hop <= hops
      invariant Survive(q, sizes, hop, surviving) && Tracks(q, sizes, hop, current, quotes, surviving)
      invariant failures == 0 <==> forall i: nat :: i < |sizes| ==> i in surviving
    {
      var lost: nat;
      current, quotes, surviving, lost := AdvanceHop(q, sizes, hop, current, quotes, surviving);
      failures := failures + lost;
      hop := hop + 1;
      if surviving == [] {
        break;
      }
    }
    NoneLeft(q, sizes, hop, hops, current, quotes, surviving);
    table := CollectQuotes(q, sizes, hops, current, quotes, surviving);
    AllSurvive(q, sizes, hops, surviving);
  }

  lemma IndexesHeld(surviving: seq<nat>, n: nat)
    requires |surviving| == n && forall i :: 0 <= i < n ==> surviving[i] == i
    ensures forall i: nat :: i in surviving <==> i < n
  {
    forall i: nat | i < n
      ensures i in surviving
    {
      assert surviving[i] == i;
    }
  }

  lemma AtStart(q: Quoter, sizes: seq<nat>, current: map<nat, nat>, quotes: map<nat, seq<Quote>>, surviving: seq<nat>)
    requires |surviving| == |sizes| && forall i :: 0 <= i < |sizes| ==> surviving[i] == i
    requires forall i: nat :: i in surviving <==> i < |sizes|
    requires forall i: nat :: i < |sizes| ==> i in current && current[i] == sizes[i] && i in quotes && quotes[i] == []
    ensures Survive(q, sizes, 0, surviving) && Tracks(q, sizes, 0, current, quotes, surviving)
  {
  }

  /** Once no size survives, none survives the whole route. */
  lemma NoneLeft(q: Quoter, sizes: seq<nat>, hop: nat, hops: nat, current: map<nat, nat>, quotes: map<nat, seq<Quote>>,
                 surviving: seq<nat>)
    requires hop <= hops && (hop == hops || surviving == [])
    requires Survive(q, sizes, hop, surviving) && Tracks(q, sizes, hop, current, quotes, surviving)
    ensures Survive(q, sizes, hops, surviving) && Tracks(q, sizes, hops, current, quotes, surviving)
  {
    if hop < hops {
      hide ChainQuote;
      forall i: nat | i < |sizes|
        ensures ChainQuote(q, sizes[i], hops).None?
      {
        assert i !in surviving;
        ChainStaysBroken(q, sizes[i], hop, hops);
      }
    }
  }

  /** The final loop: surviving sizes with a quote for every hop enter the table. */
  method CollectQuotes(
      q: Quoter, sizes: seq<nat>, hops: nat, current: map<nat, nat>, quotes: map<nat, seq<Quote>>, surviving: seq<nat>)
    returns (table: QuoteTable)
    requires Survive(q, sizes, hops, surviving) && Tracks(q, sizes, hops, current, quotes, surviving)
    ensures Tabulates(table, q, hops, true, SizesOf(sizes))
  {
    hide ChainQuote;
    table := map[];
    for n := 0 to |surviving|
      invariant forall a :: a in table ==> a in sizes && Some(table[a]) == ChainQuote(q, a, hops)
      invariant forall m :: 0 <= m < n ==> surviving[m] < |sizes| && sizes[surviving[m]] in table
    {
      var i := surviving[n];
      assert i in surviving;
      if |quotes[i]| == hops {
        table := table[sizes[i] := (current[i], quotes[i])];
      }
    }
    forall a | a in sizes && ChainQuote(q, a, hops).Some?
      ensures a in table
    {
      var i :| 0 <= i < |sizes| && sizes[i] == a;
      assert i in surviving;
    }
  }

  lemma AllSurvive(q: Quoter, sizes: seq<nat>, hops: nat, surviving: seq<nat>)
    requires Survive(q, sizes, hops, surviving)
    ensures (forall i: nat :: i < |sizes| ==> i in surviving) <==> AllQuote(q, hops, true, SizesOf(sizes))
  {
    hide ChainQuote;
    if (forall i: nat :: i < |sizes| ==> i in surviving) {
      forall a | a in sizes
        ensures ChainQuote(q, a, hops).Some?
      {
        var i :| 0 <= i < |sizes| && sizes[i] == a;
        assert i in surviving;
      }
    } else {
      var i: nat :| i < |sizes| && i !in surviving;
      assert sizes[i] in SizesOf(sizes) && !Quotes(q, hops, true, sizes[i]);
    }
  }

  // ---- the two ways agree ----

  /** One table for both ways exactly when every route that quotes through echoes its amounts, as the adapters do. */
  lemma SameTableExactly(q: Quoter, hops: nat, sizes: set<nat>, batched: QuoteTable, parallel: QuoteTable)
    requires Tabulates(batched, q, hops, true, sizes) && Tabulates(parallel, q, hops, false, sizes)
    ensures batched == parallel <==> forall a :: a in sizes && ChainQuote(q, a, hops).Some? ==> Echoes(q, a, hops)
  {
    hide ChainQuote, Echoes;
    if batched == parallel {
      forall a | a in sizes && ChainQuote(q, a, hops).Some?
        ensures Echoes(q, a, hops)
      {
        assert a in batched;
      }
    }
  }

  // ---- choosing a size ----

  /** Of the sizes that quote through, the one with the largest profit, and the smallest of those. */
  predicate BestOf(q: Quoter, hops: nat, batched: bool, sizes: set<nat>, best: nat) {
    && best in sizes && Quotes(q, hops, batched, best)
    && forall a :: a in sizes && Quotes(q, hops, batched, a) ==>
         ProfitAt(q, hops, a) < ProfitAt(q, hops, best)
         || (ProfitAt(q, hops, a) == ProfitAt(q, hops, best) && best <= a)
  }

  /** Read off the chains: any other size that quotes through earns less than the best, or as much and is larger. */
  lemma BestEarnsMost(q: Quoter, hops: nat, batched: bool, sizes: set<nat>, best: nat)
    ensures BestOf(q, hops, batched, sizes, best)
            <==> best in sizes && exists c: Chain ::
                   && Linked(q, best, hops, c) && (batched || Echoes(q, best, hops))
                   && forall a: nat, d: Chain ::
                        a in sizes && Linked(q, a, hops, d) && (batched || Echoes(q, a, hops)) ==>
                        d.0 - a < c.0 - best || (d.0 - a == c.0 - best && best <= a)
  {
    hide ChainQuote, Echoes, Linked;
    forall a, d: Chain
      ensures ChainQuote(q, a, hops) == Some(d) <==> Linked(q, a, hops, d)
    {
      ChainLinksExactly(q, a, hops, d);
    }
    if BestOf(q, hops, batched, sizes, best) {
      assert Linked(q, best, hops, ChainQuote(q, best, hops).value);
    }
    if c: Chain :|
        && best in sizes && Linked(q, best, hops, c) && (batched || Echoes(q, best, hops))
        && forall a: nat, d: Chain :: a in sizes && Linked(q, a, hops, d) && (batched || Echoes(q, a, hops)) ==>
             d.0 - a < c.0 - best || (d.0 - a == c.0 - best && best <= a)
    {
      forall a | a in sizes && Quotes(q, hops, batched, a)
        ensures ProfitAt(q, hops, a) < ProfitAt(q, hops, best)
                || (ProfitAt(q, hops, a) == ProfitAt(q, hops, best) && best <= a)
      {
        assert Linked(q, a, hops, ChainQuote(q, a, hops).value);
      }
    }
  }

  /** The route does not reach hop j, or hop j answers for the amount it was asked. */
  predicate EchoesAt(q: Quoter, size: nat, j: nat) {
    match ChainQuote(q, size, j)
    case None => true
    case Some(c) => q(j, c.0).Quoted? ==> q(j, c.0).quote.amountIn == c.0
  }

  /** Quotes echo along a route exactly when they do at every hop it reaches. */
  lemma {:induction false} EchoesExactly(q: Quoter, size: nat, k: nat)
    ensures Echoes(q, size, k) <==> forall j: nat :: j < k ==> EchoesAt(q, size, j)
  {
    if k > 0 {
      EchoesExactly(q, size, k - 1);
      assert Echoes(q, size, k) <==> Echoes(q, size, k - 1) && EchoesAt(q, size, k - 1);
      hide Echoes, EchoesAt;
    }
  }

  function ProfitAt(q: Quoter, hops: nat, size: nat): int {
    match ChainQuote(q, size, hops) case None => 0 case Some(c) => c.0 - size
  }

  /** Size a is beaten by, or is, a pick of the given size and output; ties go to the smaller size. */
  predicate NoBetter(candidates: QuoteTable, a: nat, pick: (nat, nat))
    requires a in candidates
  {
    var gain, best := candidates[a].0 - a, pick.1 - pick.0;
    gain < best || (gain == best && pick.0 <= a)
  }

  /** _pick_best. */
  method PickBest(candidates: QuoteTable) returns (best: Option<(nat, nat)>)
    ensures best.None? <==> candidates == map[]
    ensures best.Some? ==> best.value.0 in candidates && best.value.1 == candidates[best.value.0].0
    ensures best.Some? ==>
              var size, out := best.value.0, best.value.1;
              forall a :: a in candidates ==>
                candidates[a].0 - a < out - size || (candidates[a].0 - a == out - size && size <= a)
  {
    hide Sorted;
    var amounts := Sorted(candidates.Keys);
    SortedIsSorted(candidates.Keys);
    best := None;
    for i := 0 to |amounts|
      invariant best.None? <==> i == 0
      invariant best.Some? ==> best.value.0 in amounts[..i] && best.value.0 in candidates
      invariant best.Some? ==> best.value.1 == candidates[best.value.0].0
      invariant best.Some? ==>
                  forall k :: 0 <= k < i ==> amounts[k] in candidates && NoBetter(candidates, amounts[k], best.value)
    {
      var amount := amounts[i];
      assert amount in candidates;
      assert amounts[..i + 1] == amounts[..i] + [amount];
      var out := candidates[amount].0;
      if best.None? || out - amount > best.value.1 - best.value.0 {
        best := Some((amount, out));
      }
    }
    if amounts == [] {
      assert candidates.Keys == {};
    }
    assert best.Some? ==> forall a :: a in candidates ==> NoBetter(candidates, a, best.value);
  }

  method PickFromTable(q: Quoter, hops: nat, batched: bool, sizes: set<nat>, table: QuoteTable)
    returns (best: Option<(nat, nat)>)
    requires Tabulates(table, q, hops, batched, sizes)
    ensures best.None? <==> forall a :: a in sizes ==> !Quotes(q, hops, batched, a)
    ensures best.Some? ==> BestOf(q, hops, batched, sizes, best.value.0)
    ensures best.Some? ==> best.value.1 - best.value.0 == ProfitAt(q, hops, best.value.0)
  {
    hide ChainQuote, Quotes;
    best := PickBest(table);
    if best.None? {
      assert forall a :: a !in table;
    }
  }

  lemma BestIsUnique(q: Quoter, hops: nat, batched: bool, sizes: set<nat>, a: nat, b: nat)
    requires BestOf(q, hops, batched, sizes, a) && BestOf(q, hops, batched, sizes, b)
    ensures a == b
  {
    hide ChainQuote, Quotes, ProfitAt;
  }

  /** _optimize_size once the first pool's balance has given the grid; refine picks more sizes around a coarse best. */
  method OptimizeSize(
      q: Quoter, hops: nat, batched: bool, grid: seq<nat>, refine: (seq<nat>, nat) -> seq<nat>, refining: bool)
    returns (r: Option<(nat, Chain)>)
    ensures r.None? <==> forall a :: a in grid ==> !Quotes(q, hops, batched, a)
    ensures r.Some? ==> Some(r.value.1) == ChainQuote(q, r.value.0, hops)
    ensures r.Some? ==>
              exists coarse ::
                && BestOf(q, hops, batched, SizesOf(grid), coarse)
                && BestOf(q, hops, batched, SizesOf(if batched && refining then grid + refine(grid, coarse) else grid),
                          r.value.0)
  {
    hide ChainQuote, Quotes, Tabulates, BestOf, ProfitAt;
    var table, failures := QuoteAll(q, hops, batched, grid);
    var best := PickFromTable(q, hops, batched, SizesOf(grid), table);
    if best.None? {
      return None;
    }
    ghost var coarse := best.value.0;
    var tried := Tried(grid, refine, batched && refining, best.value.0);
    if batched && refining && refine(grid, best.value.0) != [] {
      var extra, more := QuoteAll(q, hops, batched, refine(grid, best.value.0));
      TablesUnite(q, hops, batched, SizesOf(grid), SizesOf(refine(grid, best.value.0)), table, extra);
      table := table + extra;
      best := PickFromTable(q, hops, batched, tried, table);
      StillQuotes(q, hops, batched, SizesOf(grid), tried, coarse);
    } else {
      assert tried == SizesOf(grid);
    }
    var again, lost := QuoteAll(q, hops, batched, [best.value.0]);
    Requoted(q, hops, batched, tried, best.value.0, again);
    assert SizesOf(grid + refine(grid, coarse)) == SizesOf(grid) + SizesOf(refine(grid, coarse));
    assert tried == SizesOf(if batched && refining then grid + refine(grid, coarse) else grid);
    return Some((best.value.0, again[best.value.0]));
  }

  function Tried(grid: seq<nat>, refine: (seq<nat>, nat) -> seq<nat>, refining: bool, coarse: nat): set<nat> {
    SizesOf(grid) + if refining then SizesOf(refine(grid, coarse)) else {}
  }

  /** The quoting way is fixed by whether every adapter of the route can be batched. */
  method QuoteAll(q: Quoter, hops: nat, batched: bool, sizes: seq<nat>) returns (table: QuoteTable, failures: nat)
    ensures Tabulates(table, q, hops, batched, SizesOf(sizes))
  {
    hide ChainQuote, Quotes, Tabulates, SizesOf;
    if batched {
      table, failures := BatchedQuotes(q, hops, sizes);
    } else {
      table, failures := ParallelQuotes(q, hops, sizes);
    }
  }

  lemma TablesUnite(q: Quoter, hops: nat, batched: bool, s: set<nat>, t: set<nat>, a: QuoteTable, b: QuoteTable)
    requires Tabulates(a, q, hops, batched, s) && Tabulates(b, q, hops, batched, t)
    ensures Tabulates(a + b, q, hops, batched, s + t)
  {
    hide ChainQuote, Quotes;
  }

  lemma StillQuotes(q: Quoter, hops: nat, batched: bool, grid: set<nat>, tried: set<nat>, coarse: nat)
    requires BestOf(q, hops, batched, grid, coarse) && grid <= tried
    ensures coarse in tried && Quotes(q, hops, batched, coarse)
  {
  }

  lemma Requoted(q: Quoter, hops: nat, batched: bool, sizes: set<nat>, best: nat, table: QuoteTable)
    requires BestOf(q, hops, batched, sizes, best) && Tabulates(table, q, hops, batched, SizesOf([best]))
    ensures best in table && Some(table[best]) == ChainQuote(q, best, hops)
    ensures exists a :: a in sizes && Quotes(q, hops, batched, a)
  {
    hide ChainQuote;
  }

  /**
   For adapters that echo, both ways choose the same coarse size, and the refined choice of the batched
   way earns at least as much.
   */
  lemma SameCoarseChoice(
      q: Quoter, hops: nat, sizes: set<nat>, tried: set<nat>, coarse: nat, chosen: nat, sequential: nat)
    requires forall a :: a in sizes && ChainQuote(q, a, hops).Some? ==> Echoes(q, a, hops)
    requires BestOf(q, hops, true, sizes, coarse) && BestOf(q, hops, false, sizes, sequential)
    requires sizes <= tried && BestOf(q, hops, true, tried, chosen)
    ensures coarse == sequential
    ensures ProfitAt(q, hops, chosen) >= ProfitAt(q, hops, sequential)
  {
    hide ChainQuote, Echoes, ProfitAt;
    assert BestOf(q, hops, true, sizes, sequential);
  }
}
