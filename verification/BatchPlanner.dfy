/**
 The packed-batch planner: grouping priced routes into menus that can share one flash loan, and
 trimming the best menu until every candidate in it pays for the exact transaction.
 */
module BatchPlanner {
  import opened Bytes
  import opened PackedFormat
  import opened StableSort

  /** The packed_candidate fields of a priced route. */
  datatype Fields = Fields(asset: nat, amount: nat, targetBlock: nat, deadline: nat, minProfit: nat, legs: seq<Leg>)

  /** A route evaluation. Route ids are hashes of one width, so they are numbers in the same order. */
  datatype Row = Row(routeId: nat, submissionEligible: bool, fields: Option<Fields>, net: Option<int>)

  datatype Key = Key(asset: nat, amount: nat, targetBlock: nat, deadline: nat)

  predicate Usable(r: Row) {
    r.submissionEligible && r.fields.Some? && r.net.Some? && r.net.value > 0
  }

  function KeyOf(r: Row): Key
    requires r.fields.Some?
  {
    var f := r.fields.value;
    Key(f.asset, f.amount, f.targetBlock, f.deadline)
  }

  predicate InGroup(r: Row, k: Key) {
    Usable(r) && KeyOf(r) == k
  }

  /** Larger net profit first, then smaller route id. */
  function RowRank(r: Row): Rank {
    (if r.net.Some? then -r.net.value else 0, r.routeId)
  }

  function GroupRank(g: seq<Row>): Rank {
    if g == [] then (0, 0) else RowRank(g[0])
  }

  // ---- grouping ----

  /** The rows of one key, in the order they came. */
  function RowsOf(rows: seq<Row>, k: Key): (s: seq<Row>)
    ensures forall r :: r in s <==> r in rows && InGroup(r, k)
  {
    if rows == [] then []
    else
      var n := |rows| - 1;
      assert rows == rows[..n] + [rows[n]];
      if InGroup(rows[n], k) then RowsOf(rows[..n], k) + [rows[n]] else RowsOf(rows[..n], k)
  }

  /** The keys in use, by first appearance: the order of a dictionary filled row by row. */
  function Keys(rows: seq<Row>): (ks: seq<Key>)
    ensures forall k :: k in ks <==> exists r :: r in rows && InGroup(r, k)
    ensures forall i, j :: 0 <= i < j < |ks| ==> ks[i] != ks[j]
  {
    if rows == [] then []
    else
      var n := |rows| - 1;
      assert rows == rows[..n] + [rows[n]];
      var before := Keys(rows[..n]);
      assert Usable(rows[n]) ==> InGroup(rows[n], KeyOf(rows[n]));
      assert forall k :: InGroup(rows[n], k) ==> k == KeyOf(rows[n]);
      if Usable(rows[n]) && KeyOf(rows[n]) !in before then before + [KeyOf(rows[n])] else before
  }

  function RankedGroup(rows: seq<Row>, k: Key): seq<Row> {
    SortBy(RowsOf(rows, k), RowRank)
  }

  function RankedGroups(rows: seq<Row>): seq<seq<Row>> {
    var ks := Keys(rows);
    SortBy(seq(|ks|, i requires 0 <= i < |ks| => RankedGroup(rows, ks[i])), GroupRank)
  }

  ghost predicate Filled(order: seq<Key>, table: map<Key, seq<Row>>, rows: seq<Row>) {
    && (forall k :: k in order <==> k in table)
    && (forall k :: k in table ==> table[k] == RowsOf(rows, k))
  }

  /** setdefault and append. */
  function Appended(table: map<Key, seq<Row>>, k: Key, row: Row): map<Key, seq<Row>> {
    table[k := (if k in table then table[k] else []) + [row]]
  }

  lemma AddRow(rows: seq<Row>, i: nat, order: seq<Key>, table: map<Key, seq<Row>>)
    requires i < |rows| && order == Keys(rows[..i]) && Filled(order, table, rows[..i])
    ensures !Usable(rows[i]) ==> Keys(rows[..i + 1]) == order && Filled(order, table, rows[..i + 1])
    ensures Usable(rows[i]) ==>
              var k := KeyOf(rows[i]);
              var next := if k in table then order else order + [k];
              Keys(rows[..i + 1]) == next && Filled(next, Appended(table, k, rows[i]), rows[..i + 1])
  {
    NextRow(rows, i);
    hide Keys, RowsOf, KeyOf, InGroup, Appended;
    var earlier, now := rows[..i], rows[..i + 1];
    FilledReads(order, table, earlier);
    if Usable(rows[i]) {
      FilledMore(order, table, earlier, now, KeyOf(rows[i]), rows[i]);
    } else {
      FilledSame(order, table, earlier, now);
    }
  }

  lemma FilledSame(order: seq<Key>, table: map<Key, seq<Row>>, earlier: seq<Row>, now: seq<Row>)
    requires Filled(order, table, earlier) && forall k :: RowsOf(now, k) == RowsOf(earlier, k)
    ensures Filled(order, table, now)
  {
    hide RowsOf;
  }

  lemma FilledMore(order: seq<Key>, table: map<Key, seq<Row>>, earlier: seq<Row>, now: seq<Row>, key: Key, row: Row)
    requires Filled(order, table, earlier)
    requires forall k :: RowsOf(now, k) == if k == key then RowsOf(earlier, k) + [row] else RowsOf(earlier, k)
    requires key !in order ==> RowsOf(earlier, key) == []
    ensures Filled(if key in table then order else order + [key], Appended(table, key, row), now)
  {
    hide RowsOf;
  }

  /** The dictionary of compatible_groups, filled row by row; order holds its keys as they were added. */
  method FillGroups(evaluations: seq<Row>) returns (order: seq<Key>, table: map<Key, seq<Row>>)
    ensures order == Keys(evaluations)
    ensures forall k :: k in order ==> k in table && table[k] == RowsOf(evaluations, k)
  {
    hide Keys, RowsOf, KeyOf, Filled;
    order, table := [], map[];
    assert evaluations[..0] == [];
    Nothing();
    for i := 0 to |evaluations|
      invariant order == Keys(evaluations[..i]) && Filled(order, table, evaluations[..i])
    {
      var row := evaluations[i];
      AddRow(evaluations, i, order, table);
      if Usable(row) {
        var k := KeyOf(row);
        if k !in table {
          order := order + [k];
        }
        table := Appended(table, k, row);
      }
    }
    assert evaluations[..|evaluations|] == evaluations;
    FilledReads(order, table, evaluations);
  }

  lemma FilledReads(order: seq<Key>, table: map<Key, seq<Row>>, rows: seq<Row>)
    requires Filled(order, table, rows)
    ensures forall k :: k in order ==> k in table && table[k] == RowsOf(rows, k)
    ensures forall k :: k in order <==> k in table
  {
  }

  /** compatible_groups. */
  method CompatibleGroups(evaluations: seq<Row>) returns (groups: seq<seq<Row>>)
    ensures groups == RankedGroups(evaluations)
  {
    hide Keys, RowsOf, SortBy;
    var order, table := FillGroups(evaluations);
    groups := [];
    for j := 0 to |order|
      invariant |groups| == j && forall m :: 0 <= m < j ==> groups[m] == RankedGroup(evaluations, order[m])
    {
      assert order[j] in order;
      groups := groups + [SortBy(table[order[j]], RowRank)];
    }
    assert groups == seq(|order|, i requires 0 <= i < |order| => RankedGroup(evaluations, order[i]));
    groups := SortBy(groups, GroupRank);
  }

  lemma Nothing()
    ensures Keys([]) == [] && Filled([], map[], [])
  {
  }

  lemma RowHasKey(rows: seq<Row>, k: Key)
    requires RowsOf(rows, k) != []
    ensures k in Keys(rows)
  {
    var r := RowsOf(rows, k)[0];
    assert r in RowsOf(rows, k);
    assert r in rows && InGroup(r, k);
  }

  lemma NextRow(rows: seq<Row>, i: nat)
    requires i < |rows|
    ensures forall k :: RowsOf(rows[..i + 1], k)
                        == if Usable(rows[i]) && k == KeyOf(rows[i]) then RowsOf(rows[..i], k) + [rows[i]]
                           else RowsOf(rows[..i], k)
    ensures Keys(rows[..i + 1])
            == if Usable(rows[i]) && KeyOf(rows[i]) !in Keys(rows[..i]) then Keys(rows[..i]) + [KeyOf(rows[i])]
               else Keys(rows[..i])
    ensures forall k :: k !in Keys(rows[..i]) ==> RowsOf(rows[..i], k) == []
  {
    assert rows[..i + 1][..i] == rows[..i];
    forall k | RowsOf(rows[..i], k) != []
      ensures k in Keys(rows[..i])
    {
      RowHasKey(rows[..i], k);
    }
  }

  // ---- the groups partition the usable rows ----

  lemma {:induction false} RowsOfCounts(rows: seq<Row>, k: Key, r: Row)
    ensures multiset(RowsOf(rows, k))[r] == if InGroup(r, k) then multiset(rows)[r] else 0
  {
    if rows != [] {
      var n := |rows| - 1;
      RowsOfCounts(rows[..n], k, r);
      assert rows == rows[..n] + [rows[n]];
    }
  }

  lemma {:induction false} CountOnce<T>(s: seq<T>, x: T)
    requires forall i, j :: 0 <= i < j < |s| ==> s[i] != s[j]
    ensures multiset(s)[x] <= 1
  {
    if s != [] {
      var n := |s| - 1;
      CountOnce(s[..n], x);
      assert s == s[..n] + [s[n]];
      if s[n] == x {
        assert x !in s[..n];
      }
    }
  }

  lemma CountTwice<T>(s: seq<T>, i: nat, j: nat)
    requires i < j < |s| && s[i] == s[j]
    ensures multiset(s)[s[i]] >= 2
  {
    var a, b := s[..i + 1], s[i + 1..];
    assert s == a + b;
    assert a[i] == s[i] && b[j - i - 1] == s[j];
    assert s[i] in multiset(a) && s[i] in multiset(b);
  }

  lemma SortedAreHeld<T>(s: seq<T>, rank: T -> Rank)
    ensures forall x :: x in SortBy(s, rank) <==> x in s
  {
    SortByIsSort(s, rank);
    hide SortBy;
    assert forall x :: x in SortBy(s, rank) <==> x in multiset(SortBy(s, rank));
    assert forall x :: x in s <==> x in multiset(s);
  }

  lemma RankedGroupHolds(rows: seq<Row>, k: Key)
    ensures forall r :: r in RankedGroup(rows, k) <==> r in rows && InGroup(r, k)
    ensures forall r :: InGroup(r, k) ==> multiset(RankedGroup(rows, k))[r] == multiset(rows)[r]
    ensures InOrder(RankedGroup(rows, k), RowRank)
  {
    hide RowsOf, SortBy;
    SortedAreHeld(RowsOf(rows, k), RowRank);
    SortByIsSort(RowsOf(rows, k), RowRank);
    forall r | InGroup(r, k)
      ensures multiset(RankedGroup(rows, k))[r] == multiset(rows)[r]
    {
      RowsOfCounts(rows, k, r);
    }
  }

  /** The group lists before the groups are ranked among themselves. */
  function GroupList(rows: seq<Row>): (l: seq<seq<Row>>)
    ensures |l| == |Keys(rows)| && forall i :: 0 <= i < |l| ==> l[i] == RankedGroup(rows, Keys(rows)[i])
  {
    seq(|Keys(rows)|, i requires 0 <= i < |Keys(rows)| => RankedGroup(rows, Keys(rows)[i]))
  }

  lemma RankedGroupsAre(rows: seq<Row>)
    ensures RankedGroups(rows) == SortBy(GroupList(rows), GroupRank)
  {
    hide Keys, SortBy, RankedGroup;
    var ks := Keys(rows);
    assert GroupList(rows) == seq(|ks|, i requires 0 <= i < |ks| => RankedGroup(rows, ks[i]));
  }

  /** A group is all the usable rows of one key, best first. */
  ghost predicate GroupOf(g: seq<Row>, rows: seq<Row>, k: Key) {
    && g != [] && InOrder(g, RowRank)
    && (forall r :: r in g <==> r in rows && InGroup(r, k))
    && (forall r :: InGroup(r, k) ==> multiset(g)[r] == multiset(rows)[r])
  }

  lemma KeyHasRow(rows: seq<Row>, k: Key)
    requires k in Keys(rows)
    ensures GroupOf(RankedGroup(rows, k), rows, k)
  {
    hide RankedGroup, InOrder, Usable;
    RankedGroupHolds(rows, k);
    var r :| r in rows && InGroup(r, k);
    hide Keys;
    assert r in RankedGroup(rows, k);
  }

  /** Every group is all the usable rows of one exact key, and groups come best first. */
  lemma GroupsAreKeys(rows: seq<Row>, i: nat)
    requires i < |RankedGroups(rows)|
    ensures exists k :: k in Keys(rows) && GroupOf(RankedGroups(rows)[i], rows, k)
    ensures InOrder(RankedGroups(rows), GroupRank)
  {
    hide Keys, SortBy, GroupOf, RankedGroup;
    RankedGroupsAre(rows);
    var l := GroupList(rows);
    SortByIsSort(l, GroupRank);
    SortedAreHeld(l, GroupRank);
    var g := RankedGroups(rows)[i];
    hide RankedGroups;
    assert g in l;
    var m :| 0 <= m < |l| && l[m] == g;
    KeyHasRow(rows, Keys(rows)[m]);
  }

  /** Groups of two places have different keys, so no row is in both. */
  lemma GroupsDisjoint(rows: seq<Row>, i: nat, j: nat, r: Row)
    requires i < j < |RankedGroups(rows)|
    ensures !(r in RankedGroups(rows)[i] && r in RankedGroups(rows)[j])
  {
    hide Keys, SortBy, RankedGroup;
    RankedGroupsAre(rows);
    var l := GroupList(rows);
    SortByIsSort(l, GroupRank);
    SortedAreHeld(l, GroupRank);
    var g, h := RankedGroups(rows)[i], RankedGroups(rows)[j];
    hide RankedGroups, InOrder;
    assert g in l && h in l;
    var m :| 0 <= m < |l| && l[m] == g;
    var n :| 0 <= n < |l| && l[n] == h;
    RankedGroupHolds(rows, Keys(rows)[m]);
    RankedGroupHolds(rows, Keys(rows)[n]);
    if m == n {
      GroupListDistinct(rows);
      CountOnce(l, g);
      CountTwice(SortBy(l, GroupRank), i, j);
      assert false;
    }
  }

  lemma GroupListDistinct(rows: seq<Row>)
    ensures forall i, j :: 0 <= i < j < |GroupList(rows)| ==> GroupList(rows)[i] != GroupList(rows)[j]
  {
    hide RankedGroup, GroupList;
    var ks := Keys(rows);
    forall i, j | 0 <= i < j < |ks|
      ensures RankedGroup(rows, ks[i]) != RankedGroup(rows, ks[j])
    {
      assert ks[i] in ks;
      KeyHasRow(rows, ks[i]);
      RankedGroupHolds(rows, ks[j]);
      assert RankedGroup(rows, ks[i])[0] in RankedGroup(rows, ks[i]);
    }
  }

  lemma KeyHasGroup(rows: seq<Row>, k: Key)
    requires k in Keys(rows)
    ensures exists i :: 0 <= i < |RankedGroups(rows)| && RankedGroups(rows)[i] == RankedGroup(rows, k)
  {
    hide Keys, SortBy, RankedGroup, InOrder, RankedGroups;
    var ks := Keys(rows);
    var m :| 0 <= m < |ks| && ks[m] == k;
    RankedGroupsAre(rows);
    SortedAreHeld(GroupList(rows), GroupRank);
    assert GroupList(rows)[m] in GroupList(rows);
    assert GroupList(rows)[m] in RankedGroups(rows);
  }

  /** Grouping loses and repeats nothing: a usable row is in exactly one group, as often as it was given. */
  lemma RowInOneGroup(rows: seq<Row>, r: Row)
    requires r in rows && Usable(r)
    ensures exists i :: 0 <= i < |RankedGroups(rows)| && GroupOf(RankedGroups(rows)[i], rows, KeyOf(r))
              && forall j :: 0 <= j < |RankedGroups(rows)| && j != i ==> r !in RankedGroups(rows)[j]
  {
    assert InGroup(r, KeyOf(r)) && KeyOf(r) in Keys(rows);
    hide Keys, SortBy, RankedGroup, RankedGroups, InOrder, Usable;
    KeyHasRow(rows, KeyOf(r));
    KeyHasGroup(rows, KeyOf(r));
    var gs := RankedGroups(rows);
    var i :| 0 <= i < |gs| && gs[i] == RankedGroup(rows, KeyOf(r));
    assert r in gs[i];
    forall j | 0 <= j < |gs| && j != i
      ensures r !in gs[j]
    {
      GroupsDisjoint(rows, if i < j then i else j, if i < j then j else i, r);
    }
  }

  // ---- which rows are grouped, and in what order ----

  /** A row is in some group exactly if it is eligible, has a packed candidate, and a positive net profit. */
  lemma GroupedExactly(rows: seq<Row>, r: Row)
    ensures (exists i :: 0 <= i < |RankedGroups(rows)| && r in RankedGroups(rows)[i])
       <==> r in rows && r.submissionEligible && r.fields.Some? && r.net.Some? && r.net.value > 0
  {
    hide RankedGroups, Keys, InOrder;
    if r in rows && Usable(r) {
      RowInOneGroup(rows, r);
    }
    if i :| 0 <= i < |RankedGroups(rows)| && r in RankedGroups(rows)[i] {
      GroupsAreKeys(rows, i);
    }
  }

  /** Two grouped rows share a group exactly if asset, amount, target block and deadline are the same. */
  lemma SameGroupExactly(rows: seq<Row>, i: nat, r: Row, r': Row)
    requires i < |RankedGroups(rows)| && r in RankedGroups(rows)[i] && r' in rows && Usable(r')
    ensures r.fields.Some?
    ensures var f, f' := r.fields.value, r'.fields.value;
            r' in RankedGroups(rows)[i]
            <==>
              && f'.asset == f.asset && f'.amount == f.amount
              && f'.targetBlock == f.targetBlock && f'.deadline == f.deadline
  {
    hide RankedGroups, Keys, InOrder;
    GroupsAreKeys(rows, i);
  }

  /** Within a group a larger net profit comes first, and a smaller route id on ties. */
  lemma GroupBestFirst(rows: seq<Row>, i: nat, a: nat, b: nat)
    requires i < |RankedGroups(rows)| && a < b < |RankedGroups(rows)[i]|
    ensures var g := RankedGroups(rows)[i];
            && g[a].net.Some? && g[b].net.Some?
            && (g[a].net.value > g[b].net.value || (g[a].net.value == g[b].net.value && g[a].routeId <= g[b].routeId))
  {
    hide RankedGroups, Keys;
    GroupsAreKeys(rows, i);
    var g := RankedGroups(rows)[i];
    var k :| k in Keys(rows) && GroupOf(g, rows, k);
    assert g[a] in g && g[b] in g;
    assert NoLater(RowRank(g[a]), RowRank(g[b]));
  }

  /** Groups come in the same order of their first rows. */
  lemma GroupsBestFirst(rows: seq<Row>, i: nat, j: nat)
    requires i < j < |RankedGroups(rows)|
    ensures RankedGroups(rows)[i] != [] && RankedGroups(rows)[j] != []
    ensures var a, b := RankedGroups(rows)[i][0], RankedGroups(rows)[j][0];
            && a.net.Some? && b.net.Some?
            && (a.net.value > b.net.value || (a.net.value == b.net.value && a.routeId <= b.routeId))
  {
    hide RankedGroups, Keys;
    GroupsAreKeys(rows, i);
    GroupsAreKeys(rows, j);
    var gs := RankedGroups(rows);
    var k :| k in Keys(rows) && GroupOf(gs[i], rows, k);
    var m :| m in Keys(rows) && GroupOf(gs[j], rows, m);
    assert gs[i][0] in gs[i] && gs[j][0] in gs[j];
    assert NoLater(GroupRank(gs[i]), GroupRank(gs[j]));
  }

  /** The first row of the first group is the best usable row of all. */
  lemma BestOfAll(rows: seq<Row>)
    requires RankedGroups(rows) != []
    ensures RankedGroups(rows)[0] != []
    ensures var best := RankedGroups(rows)[0][0];
            && best in rows && best.submissionEligible && best.fields.Some? && best.net.Some? && best.net.value > 0
            && forall r: Row :: r in rows && Usable(r) ==>
                 best.net.value > r.net.value || (best.net.value == r.net.value && best.routeId <= r.routeId)
  {
    hide RankedGroups, Keys, InOrder;
    var gs: seq<seq<Row>> := RankedGroups(rows);
    GroupsAreKeys(rows, 0);
    assert gs[0][0] in gs[0];
    forall r: Row | r in rows && Usable(r)
      ensures gs[0][0].net.value > r.net.value || (gs[0][0].net.value == r.net.value && gs[0][0].routeId <= r.routeId)
    {
      GroupedExactly(rows, r);
      var i :| 0 <= i < |gs| && r in gs[i];
      var b :| 0 <= b < |gs[i]| && gs[i][b] == r;
      if b > 0 {
        GroupBestFirst(rows, i, 0, b);
      }
      if i > 0 {
        GroupsBestFirst(rows, 0, i);
      }
    }
  }
}
