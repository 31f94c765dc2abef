/** Python's stable sort by a pair key: a smaller first part first, then a smaller second part. */
module StableSort {

  type Rank = (int, nat)

  predicate NoLater(a: Rank, b: Rank) {
    a.0 < b.0 || (a.0 == b.0 && a.1 <= b.1)
  }

  predicate InOrder<T>(s: seq<T>, rank: T -> Rank) {
    forall i, j :: 0 <= i < j < |s| ==> NoLater(rank(s[i]), rank(s[j]))
  }

  /** Places x behind everything that does not come strictly later. */
  function Insert<T>(s: seq<T>, x: T, rank: T -> Rank): seq<T> {
    if s == [] || NoLater(rank(s[|s| - 1]), rank(x)) then s + [x]
    else Insert(s[..|s| - 1], x, rank) + [s[|s| - 1]]
  }

  function SortBy<T>(s: seq<T>, rank: T -> Rank): seq<T> {
    if s == [] then [] else Insert(SortBy(s[..|s| - 1], rank), s[|s| - 1], rank)
  }

  lemma {:induction false} InsertKeepsElements<T>(s: seq<T>, x: T, rank: T -> Rank)
    ensures multiset(Insert(s, x, rank)) == multiset(s) + multiset{x}
  {
    if s != [] && !NoLater(rank(s[|s| - 1]), rank(x)) {
      InsertKeepsElements(s[..|s| - 1], x, rank);
      assert s == s[..|s| - 1] + [s[|s| - 1]];
    }
  }

  lemma {:induction false} InsertKeepsOrder<T>(s: seq<T>, x: T, rank: T -> Rank)
    requires InOrder(s, rank)
    ensures InOrder(Insert(s, x, rank), rank)
    ensures forall y :: y in Insert(s, x, rank) ==> y in s || y == x
  {
    if s != [] && !NoLater(rank(s[|s| - 1]), rank(x)) {
      var n := |s| - 1;
      InsertKeepsOrder(s[..n], x, rank);
      hide Insert;
      var t := Insert(s[..n], x, rank);
      forall i | 0 <= i < |t|
        ensures NoLater(rank(t[i]), rank(s[n]))
      {
        assert t[i] in t;
      }
      assert t[..|t|] + [s[n]] == t + [s[n]];
    }
  }

  /** The result is in order and holds the same elements as often. */
  lemma {:induction false} SortByIsSort<T>(s: seq<T>, rank: T -> Rank)
    ensures InOrder(SortBy(s, rank), rank)
    ensures multiset(SortBy(s, rank)) == multiset(s)
    ensures |SortBy(s, rank)| == |s|
  {
    if s != [] {
      var n := |s| - 1;
      assert SortBy(s, rank) == Insert(SortBy(s[..n], rank), s[n], rank);
      hide SortBy, Insert, InOrder;
      SortByIsSort(s[..n], rank);
      InsertKeepsOrder(SortBy(s[..n], rank), s[n], rank);
      InsertKeepsElements(SortBy(s[..n], rank), s[n], rank);
      assert s == s[..n] + [s[n]];
      assert |SortBy(s, rank)| == |multiset(SortBy(s, rank))| == |multiset(s)|;
    }
  }

  // ---- stability ----

  /** The elements of one rank, in the order in which they stand. */
  function OfRank<T>(s: seq<T>, rank: T -> Rank, r: Rank): seq<T> {
    if s == [] then []
    else OfRank(s[..|s| - 1], rank, r) + if rank(s[|s| - 1]) == r then [s[|s| - 1]] else []
  }

  lemma OfRankLast<T>(s: seq<T>, x: T, rank: T -> Rank, r: Rank)
    ensures OfRank(s + [x], rank, r) == OfRank(s, rank, r) + if rank(x) == r then [x] else []
  {
    assert (s + [x])[..|s|] == s;
  }

  /** An inserted element comes last among those of its rank. */
  lemma {:induction false} InsertIsStable<T>(s: seq<T>, x: T, rank: T -> Rank, r: Rank)
    ensures OfRank(Insert(s, x, rank), rank, r) == OfRank(s, rank, r) + if rank(x) == r then [x] else []
  {
    if s == [] || NoLater(rank(s[|s| - 1]), rank(x)) {
      OfRankLast(s, x, rank, r);
    } else {
      var n := |s| - 1;
      InsertIsStable(s[..n], x, rank, r);
      OfRankLast(Insert(s[..n], x, rank), s[n], rank, r);
    }
  }

  /** Elements of equal rank keep their order: for every rank the result lists the same elements in the same order. */
  lemma {:induction false} SortByIsStable<T>(s: seq<T>, rank: T -> Rank, r: Rank)
    ensures OfRank(SortBy(s, rank), rank, r) == OfRank(s, rank, r)
  {
    if s == [] {
    } else {
      var n := |s| - 1;
      SortByIsStable(s[..n], rank, r);
      InsertIsStable(SortBy(s[..n], rank), s[n], rank, r);
    }
  }
}
