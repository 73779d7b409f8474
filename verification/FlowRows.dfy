/** The rows a counter map is drained into: each entry once, in an order that is the map's alone,
    whatever order Go walks it in. */
module FlowRows {

  // ---------------------------------------------------------------- listings

  datatype Row<K, V> = Row(key: K, counts: V)

  /** The rows are the entries of m, each once, in some order. */
  ghost predicate Lists<K, V>(rows: seq<Row<K, V>>, m: map<K, V>) {
    && (forall i :: 0 <= i < |rows| ==> rows[i].key in m && rows[i].counts == m[rows[i].key])
    && (forall i, j :: 0 <= i < j < |rows| ==> rows[i].key != rows[j].key)
    && (forall k :: k in m ==> exists i :: 0 <= i < |rows| && rows[i].key == k)
  }

  function AsMap<K, V>(rows: seq<Row<K, V>>): map<K, V> {
    if rows == [] then map[] else AsMap(rows[..|rows| - 1])[rows[|rows| - 1].key := rows[|rows| - 1].counts]
  }

  lemma {:induction false} AsMapLists<K, V>(rows: seq<Row<K, V>>, m: map<K, V>)
    requires Lists(rows, m)
    ensures AsMap(rows) == m
  {
    if rows != [] {
      var front, last := rows[..|rows| - 1], rows[|rows| - 1];
      forall k | k in m - {last.key} ensures exists i :: 0 <= i < |front| && front[i].key == k {
        var i :| 0 <= i < |rows| && rows[i].key == k;
        assert front[i].key == k;
      }
      AsMapLists(front, m - {last.key});
    }
  }

  lemma ListsEmpty<K, V>(rows: seq<Row<K, V>>, m: map<K, V>)
    requires Lists(rows, m)
    ensures |rows| == 0 <==> m == map[]
  {
    assert rows != [] ==> rows[0].key in m;
  }

  /** A Go map iterated in whatever order it comes. */
  method CopyRows<K(==), V>(m: map<K, V>) returns (rows: seq<Row<K, V>>)
    ensures Lists(rows, m)
  {
    rows := [];
    var left := m.Keys;
    while left != {}
      invariant left <= m.Keys
      invariant forall i :: 0 <= i < |rows| ==>
                  rows[i].key in m && rows[i].key !in left && rows[i].counts == m[rows[i].key]
      invariant forall i, j :: 0 <= i < j < |rows| ==> rows[i].key != rows[j].key
      invariant forall k :: k in m && k !in left ==> exists i :: 0 <= i < |rows| && rows[i].key == k
      decreases |left|
    {
      var k :| k in left;
      ghost var was := rows;
      rows := rows + [Row(k, m[k])];
      left := left - {k};
      forall x | x in m && x !in left ensures exists i :: 0 <= i < |rows| && rows[i].key == x {
        if x == k {
          assert rows[|was|].key == x;
        } else {
          var i :| 0 <= i < |was| && was[i].key == x;
          assert rows[i].key == x;
        }
      }
    }
  }

  // ---------------------------------------------------------------- order

  type Order<!K> = (K, K) -> int

  ghost predicate Ranks<K(!new)>(cmp: Order<K>) {
    && (forall a, b :: cmp(a, b) == -cmp(b, a))
    && (forall a, b, c :: cmp(a, b) <= 0 && cmp(b, c) <= 0 ==> cmp(a, c) <= 0)
  }

  ghost predicate Ordered<K, V>(rows: seq<Row<K, V>>, cmp: Order<K>) {
    forall i, j :: 0 <= i < j < |rows| ==> cmp(rows[i].key, rows[j].key) <= 0
  }

  function InsertRow<K, V>(r: Row<K, V>, rows: seq<Row<K, V>>, cmp: Order<K>): seq<Row<K, V>> {
    if rows == [] then [r]
    else if cmp(r.key, rows[0].key) <= 0 then [r] + rows
    else [rows[0]] + InsertRow(r, rows[1..], cmp)
  }

  /** sort.Slice. */
  function SortRows<K, V>(rows: seq<Row<K, V>>, cmp: Order<K>): seq<Row<K, V>> {
    if rows == [] then [] else InsertRow(rows[0], SortRows(rows[1..], cmp), cmp)
  }

  lemma ListsCons<K, V>(r: Row<K, V>, rows: seq<Row<K, V>>, m: map<K, V>)
    requires Lists(rows, m) && r.key !in m
    ensures Lists([r] + rows, m[r.key := r.counts])
  {
    var all := [r] + rows;
    var n := m[r.key := r.counts];
    forall k | k in n ensures exists i :: 0 <= i < |all| && all[i].key == k {
      if k == r.key {
        assert all[0].key == k;
      } else {
        var i :| 0 <= i < |rows| && rows[i].key == k;
        assert all[i + 1].key == k;
      }
    }
  }

  lemma ListsTail<K, V>(rows: seq<Row<K, V>>, m: map<K, V>)
    requires Lists(rows, m) && rows != []
    ensures Lists(rows[1..], m - {rows[0].key}) && rows[0].key in m && rows[0].counts == m[rows[0].key]
  {
    var rest := rows[1..];
    forall k | k in m - {rows[0].key} ensures exists i :: 0 <= i < |rest| && rest[i].key == k {
      var i :| 0 <= i < |rows| && rows[i].key == k;
      assert rest[i - 1].key == k;
    }
  }

  lemma {:induction false} InsertLists<K, V>(r: Row<K, V>, rows: seq<Row<K, V>>, m: map<K, V>, cmp: Order<K>)
    requires Lists(rows, m) && r.key !in m
    ensures Lists(InsertRow(r, rows, cmp), m[r.key := r.counts])
  {
    hide Lists;
    ListsCons(r, rows, m);
    if rows == [] {
      assert [r] + rows == [r];
    } else {
      ListsTail(rows, m);
      var k0 := rows[0].key;
      InsertLists(r, rows[1..], m - {k0}, cmp);
      ListsCons(rows[0], InsertRow(r, rows[1..], cmp), (m - {k0})[r.key := r.counts]);
      assert (m - {k0})[r.key := r.counts][k0 := rows[0].counts] == m[r.key := r.counts];
    }
  }

  /** Sorting keeps the listing. */
  lemma {:induction false} SortLists<K, V>(rows: seq<Row<K, V>>, m: map<K, V>, cmp: Order<K>)
    requires Lists(rows, m)
    ensures Lists(SortRows(rows, cmp), m)
  {
    if rows != [] {
      ListsTail(rows, m);
      hide Lists;
      var k0 := rows[0].key;
      SortLists(rows[1..], m - {k0}, cmp);
      InsertLists(rows[0], SortRows(rows[1..], cmp), m - {k0}, cmp);
      assert (m - {k0})[k0 := rows[0].counts] == m;
    }
  }

  lemma {:induction false} InsertOrdered<K(!new), V>(r: Row<K, V>, rows: seq<Row<K, V>>, cmp: Order<K>)
    requires Ranks(cmp) && Ordered(rows, cmp)
    ensures Ordered(InsertRow(r, rows, cmp), cmp)
    ensures var s := InsertRow(r, rows, cmp);
            s != [] && (s[0] == r || (rows != [] && s[0] == rows[0] && cmp(rows[0].key, r.key) <= 0))
  {
    if rows != [] {
      if cmp(r.key, rows[0].key) <= 0 {
        OrderedCons(r, rows, cmp);
      } else {
        assert cmp(rows[0].key, r.key) <= 0;
        var rest := rows[1..];
        InsertOrdered(r, rest, cmp);
        var s := InsertRow(r, rest, cmp);
        assert cmp(rows[0].key, s[0].key) <= 0;
        OrderedCons(rows[0], s, cmp);
      }
    }
  }

  lemma OrderedCons<K(!new), V>(r: Row<K, V>, rows: seq<Row<K, V>>, cmp: Order<K>)
    requires Ranks(cmp) && Ordered(rows, cmp) && (rows != [] ==> cmp(r.key, rows[0].key) <= 0)
    ensures Ordered([r] + rows, cmp)
  {
    var all := [r] + rows;
    forall i, j | 0 <= i < j < |all| ensures cmp(all[i].key, all[j].key) <= 0 {
      if i == 0 {
        assert cmp(r.key, rows[0].key) <= 0;
        assert j == 1 || cmp(rows[0].key, rows[j - 1].key) <= 0;
      } else {
        assert cmp(rows[i - 1].key, rows[j - 1].key) <= 0;
      }
    }
  }

  lemma {:induction false} SortOrders<K(!new), V>(rows: seq<Row<K, V>>, cmp: Order<K>)
    requires Ranks(cmp)
    ensures Ordered(SortRows(rows, cmp), cmp)
  {
    hide Ranks, Ordered;
    if rows == [] {
      NoneOrdered<K, V>(cmp);
    } else {
      SortOrders(rows[1..], cmp);
      InsertOrdered(rows[0], SortRows(rows[1..], cmp), cmp);
    }
  }

  lemma NoneOrdered<K, V>(cmp: Order<K>)
    ensures Ordered<K, V>([], cmp)
  {
  }

  /** The order tells the keys of m apart. */
  ghost predicate Separates<K(!new), V>(cmp: Order<K>, m: map<K, V>) {
    forall a, b :: a in m && b in m && cmp(a, b) == 0 ==> a == b
  }

  lemma LeastFirst<K(!new), V>(a: seq<Row<K, V>>, b: seq<Row<K, V>>, m: map<K, V>, cmp: Order<K>)
    requires Ranks(cmp) && Lists(a, m) && Lists(b, m) && Ordered(a, cmp) && b != []
    ensures a != [] && cmp(a[0].key, b[0].key) <= 0
  {
    assert b[0].key in m;
    var i :| 0 <= i < |a| && a[i].key == b[0].key;
    assert cmp(a[0].key, a[0].key) == -cmp(a[0].key, a[0].key);
    assert i == 0 || cmp(a[0].key, a[i].key) <= 0;
  }

  /** What is drained does not depend on the order the maps were walked in: an ordered listing
      is unique. */
  lemma {:induction false} OrderedListingUnique<K(!new), V>(a: seq<Row<K, V>>, b: seq<Row<K, V>>, m: map<K, V>,
      cmp: Order<K>)
    requires Ranks(cmp) && Separates(cmp, m)
    requires Lists(a, m) && Lists(b, m) && Ordered(a, cmp) && Ordered(b, cmp)
    ensures a == b
    decreases |a|
  {
    hide Lists, Ordered, Ranks, Separates;
    if b == [] {
      if a != [] { LeastFirst(b, a, m, cmp); }
    } else {
      SameFirst(a, b, m, cmp);
      ListsTail(a, m);
      ListsTail(b, m);
      OrderedTail(a, cmp);
      OrderedTail(b, cmp);
      SeparatesFewer(cmp, m, a[0].key);
      OrderedListingUnique(a[1..], b[1..], m - {a[0].key}, cmp);
      assert a == [a[0]] + a[1..] && b == [b[0]] + b[1..];
    }
  }

  lemma SeparatesFewer<K(!new), V>(cmp: Order<K>, m: map<K, V>, k: K)
    requires Separates(cmp, m)
    ensures Separates(cmp, m - {k})
  {
  }

  lemma SameFirst<K(!new), V>(a: seq<Row<K, V>>, b: seq<Row<K, V>>, m: map<K, V>, cmp: Order<K>)
    requires Ranks(cmp) && Separates(cmp, m)
    requires Lists(a, m) && Lists(b, m) && Ordered(a, cmp) && Ordered(b, cmp) && b != []
    ensures a != [] && a[0] == b[0]
  {
    LeastFirst(a, b, m, cmp);
    LeastFirst(b, a, m, cmp);
    ListsTail(a, m);
    ListsTail(b, m);
    hide Lists, Ordered;
    assert cmp(a[0].key, b[0].key) == -cmp(b[0].key, a[0].key);
    assert a[0].key == b[0].key;
  }

  lemma OrderedTail<K, V>(rows: seq<Row<K, V>>, cmp: Order<K>)
    requires Ordered(rows, cmp) && rows != []
    ensures Ordered(rows[1..], cmp)
  {
  }
}
