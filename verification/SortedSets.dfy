/** Python's sorted() on a set of numbers. */
module SortedSets {
  predicate Least(m: nat, s: set<nat>) {
    m in s && forall x :: x in s ==> m <= x
  }

  lemma {:induction false} LeastExists(s: set<nat>)
    requires s != {}
    ensures exists m :: Least(m, s)
    decreases |s|
  {
    var a :| a in s;
    var rest := s - {a};
    if rest == {} {
      assert s == {a};
      assert Least(a, s);
    } else {
      LeastExists(rest);
      var m :| Least(m, rest);
      LeastOfMore(m, a, rest, s);
    }
  }

  lemma LeastOfMore(m: nat, a: nat, rest: set<nat>, s: set<nat>)
    requires Least(m, rest) && s == rest + {a}
    ensures Least(if a <= m then a else m, s)
  {
  }

  /** The elements in ascending order. */
  function Sorted(s: set<nat>): seq<nat>
    decreases |s|
  {
    if s == {} then []
    else
      LeastExists(s);
      var m :| Least(m, s);
      [m] + Sorted(s - {m})
  }

  predicate Ascending(r: seq<nat>) {
    forall i, j :: 0 <= i < j < |r| ==> r[i] < r[j]
  }

  lemma {:induction false} SortedIsSorted(s: set<nat>)
    ensures Ascending(Sorted(s)) && forall x :: x in Sorted(s) <==> x in s
    decreases |s|
  {
    if s != {} {
      LeastExists(s);
      var m := Sorted(s)[0];
      var rest := s - {m};
      assert Least(m, s) && Sorted(s) == [m] + Sorted(rest);
      hide Sorted;
      SortedIsSorted(rest);
      Precedes(m, Sorted(rest));
      assert s == {m} + rest;
    }
  }

  lemma Precedes(m: nat, r: seq<nat>)
    requires Ascending(r) && forall x :: x in r ==> m < x
    ensures Ascending([m] + r)
  {
    assert forall k :: 0 <= k < |r| ==> r[k] in r;
  }
}
