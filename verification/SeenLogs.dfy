/** The bounded memory of log keys that keeps re-delivered chain events from being handled twice. */
module SeenLogs {

  type Key = string

  /** The last min(capacity, n) of n keys. */
  function Window(keys: seq<Key>, capacity: nat): (w: seq<Key>)
    ensures |w| == if |keys| <= capacity then |keys| else capacity
  {
    if |keys| <= capacity then keys else keys[|keys| - capacity..]
  }

  /** The keys reported new, in order, when all the given keys are inserted into an empty memory. */
  function Accepted(keys: seq<Key>, capacity: nat): seq<Key> {
    if keys == [] then []
    else
      var before, key := Accepted(keys[..|keys| - 1], capacity), keys[|keys| - 1];
      if key in Window(before, capacity) then before else before + [key]
  }

  predicate Distinct(keys: seq<Key>) {
    forall i, j :: 0 <= i < j < |keys| ==> keys[i] != keys[j]
  }

  lemma AcceptedNext(keys: seq<Key>, key: Key, capacity: nat)
    ensures Accepted(keys + [key], capacity)
            == if key in Window(Accepted(keys, capacity), capacity) then Accepted(keys, capacity)
               else Accepted(keys, capacity) + [key]
  {
    assert (keys + [key])[..|keys|] == keys;
  }

  /** One more key pushes the oldest out once the window is full. */
  lemma WindowNext(keys: seq<Key>, key: Key, capacity: nat)
    ensures Window(keys + [key], capacity) == Window(Window(keys, capacity) + [key], capacity)
  {
  }

  lemma WindowKeepsDistinct(keys: seq<Key>, key: Key, capacity: nat)
    requires Distinct(keys) && key !in keys
    ensures Distinct(keys + [key]) && Distinct(Window(keys + [key], capacity))
  {
  }

  lemma {:induction false} WindowDistinct(keys: seq<Key>, capacity: nat)
    ensures Distinct(Window(Accepted(keys, capacity), capacity))
  {
    if keys != [] {
      var earlier, key := keys[..|keys| - 1], keys[|keys| - 1];
      WindowDistinct(earlier, capacity);
      assert keys == earlier + [key];
      AcceptedNext(earlier, key, capacity);
      var a := Accepted(earlier, capacity);
      hide Accepted, Window, Distinct;
      if key !in Window(a, capacity) {
        WindowNext(a, key, capacity);
        WindowKeepsDistinct(Window(a, capacity), key, capacity);
      }
    }
  }

  class SeenLogs {
    const capacity: nat
    var members: set<Key>
    var order: seq<Key>
    ghost var inserted: seq<Key>

    /** Queue and set hold the same distinct keys: the last min(capacity, n) of the n accepted so far. */
    ghost predicate Valid()
      reads this
    {
      && order == Window(Accepted(inserted, capacity), capacity)
      && Distinct(order)
      && (forall k :: k in members <==> k in order)
    }

    constructor (capacity: nat)
      ensures Valid() && this.capacity == capacity && inserted == []
    {
      this.capacity := capacity;
      members, order, inserted := {}, [], [];
    }

    /** The eviction loop. */
    method Evict()
      requires Distinct(order) && forall k :: k in members <==> k in order
      modifies this`members, this`order
      ensures order == Window(old(order), capacity)
      ensures forall k :: k in members <==> k in order
    {
      while |order| > capacity
        invariant |order| <= |old(order)| && order == old(order)[|old(order)| - |order|..]
        invariant |order| < |old(order)| ==> |order| >= capacity
        invariant Distinct(order) && forall k :: k in members <==> k in order
      {
        var oldest := order[0];
        assert order == [oldest] + order[1..];
        order := order[1..];
        members := members - {oldest};
      }
    }

    method InsertIfNew(key: Key) returns (isNew: bool)
      requires Valid()
      modifies this
      ensures Valid() && inserted == old(inserted) + [key]
      ensures isNew <==> key !in Window(Accepted(old(inserted), capacity), capacity)
    {
      hide Accepted, Window, Distinct;
      AcceptedNext(inserted, key, capacity);
      ghost var accepted := Accepted(inserted, capacity);
      inserted := inserted + [key];
      if key in members {
        return false;
      }
      WindowNext(accepted, key, capacity);
      WindowKeepsDistinct(order, key, capacity);
      members := members + {key};
      order := order + [key];
      Evict();
      return true;
    }
  }

  /** A key counts as new again exactly when it is not among the last min(capacity, n) accepted keys. */
  lemma {:induction false} AcceptedAgainExactly(keys: seq<Key>, key: Key, capacity: nat)
    ensures |Accepted(keys + [key], capacity)| == |Accepted(keys, capacity)| + 1
            <==> forall i :: 0 <= i < |Accepted(keys, capacity)| && i >= |Accepted(keys, capacity)| - capacity
                             ==> Accepted(keys, capacity)[i] != key
  {
    AcceptedNext(keys, key, capacity);
    hide Accepted;
    var a := Accepted(keys, capacity);
    var drop := if |a| <= capacity then 0 else |a| - capacity;
    assert forall i :: drop <= i < |a| ==> a[i] == Window(a, capacity)[i - drop];
    assert forall m :: 0 <= m < |Window(a, capacity)| ==> Window(a, capacity)[m] == a[m + drop];
  }
}
