/** The order in which a plain `SELECT` without `ORDER BY` yields the rows of a
    table keyed by an integer primary key: ascending key order (SQLite's rowid
    scan). */
module OrderedKeys {

  predicate StrictlyIncreasing(s: seq<int>) {
    forall i, j :: 0 <= i < j < |s| ==> s[i] < s[j]
  }

  lemma {:induction false} HasMinimum(s: set<int>)
    requires s != {}
    ensures exists m :: m in s && forall k :: k in s ==> m <= k
    decreases |s|
  {
    assert (forall y :: y !in s) ==> s == {};
    var x :| x in s;
    var rest := s - {x};
    assert forall k :: k in s ==> k == x || k in rest;
    if rest == {} {
      assert forall k :: k in s ==> x <= k;
    } else {
      HasMinimum(rest);
      var m :| m in rest && forall k :: k in rest ==> m <= k;
      var lo := if x < m then x else m;
      forall k | k in s ensures lo <= k {
        if k != x {
          assert k in rest;
        }
      }
      assert lo in s;
    }
  }

  /** The smallest key of a non-empty key set. */
  function Min(s: set<int>): (m: int)
    requires s != {}
    ensures m in s && forall k :: k in s ==> m <= k
  {
    HasMinimum(s);
    var m :| m in s && forall k :: k in s ==> m <= k;
    m
  }

  /** The keys of `s`, each once, smallest first. */
  function Ascending(s: set<int>): (r: seq<int>)
    ensures StrictlyIncreasing(r)
    ensures forall k :: k in r <==> k in s
    ensures |r| == |s|
    decreases |s|
  {
    if s == {} then []
    else
      var m := Min(s);
      var tail := Ascending(s - {m});
      assert forall i :: 0 <= i < |tail| ==> m < tail[i];
      [m] + tail
  }

  /** The rows stored under `keys`, in that order. */
  function RowsAt<V(!new)>(table: map<int, V>, keys: seq<int>): (rows: seq<V>)
    requires forall i :: 0 <= i < |keys| ==> keys[i] in table
    ensures |rows| == |keys|
    ensures forall i :: 0 <= i < |keys| ==> rows[i] == table[keys[i]]
  {
    if keys == [] then [] else [table[keys[0]]] + RowsAt(table, keys[1..])
  }

  /** Reading the rows under every key of the table yields every stored row and nothing else. */
  lemma RowsAtValues<V(!new)>(table: map<int, V>, keys: seq<int>)
    requires forall i :: 0 <= i < |keys| ==> keys[i] in table
    requires forall k :: k in table ==> k in keys
    ensures forall v :: v in RowsAt(table, keys) <==> v in table.Values
  {
    var rows := RowsAt(table, keys);
    forall v | v in table.Values ensures v in rows {
      assert (forall k :: k in table ==> table[k] != v) ==> v !in table.Values;
      var k :| k in table && table[k] == v;
      var i :| 0 <= i < |keys| && keys[i] == k;
      assert rows[i] == v;
    }
    forall v | v in rows ensures v in table.Values {
      var i :| 0 <= i < |rows| && rows[i] == v;
      assert keys[i] in table;
    }
  }

  /** The rows of `table` in scan order: each row once per key it is stored under. */
  function Scan<V(==, !new)>(table: map<int, V>): (rows: seq<V>)
    ensures |rows| == |table|
    ensures forall v :: v in rows <==> v in table.Values
  {
    var keys := Ascending(table.Keys);
    RowsAtValues(table, keys);
    RowsAt(table, keys)
  }

  /** Row `i` of the scan is the row under the `i`-th smallest key. */
  lemma ScanInKeyOrder<V(!new)>(table: map<int, V>)
    ensures var keys := Ascending(table.Keys);
            |keys| == |Scan(table)| && forall i :: 0 <= i < |keys| ==> keys[i] in table && Scan(table)[i] == table[keys[i]]
  {
    var keys := Ascending(table.Keys);
    assert forall i :: 0 <= i < |keys| ==> keys[i] in table;
    var rows := RowsAt(table, keys);
    assert Scan(table) == rows;
  }

  /** The id SQLite gives a new row of a table whose `INTEGER PRIMARY KEY` has
      no AUTOINCREMENT: one more than the largest id present, or 1 for an empty
      table. */
  function NextRowId(keys: set<int>): (n: int)
    ensures n !in keys
    ensures forall k :: k in keys ==> k < n
    ensures keys == {} ==> n == 1
    ensures keys != {} ==> n - 1 in keys
  {
    if keys == {} then 1
    else
      var a := Ascending(keys);
      assert a[|a| - 1] in keys;
      forall k | k in keys ensures k <= a[|a| - 1] {
        var i :| 0 <= i < |a| && a[i] == k;
      }
      a[|a| - 1] + 1
  }

  /** Ids are not reserved: once the row with the largest id is deleted, the
      next insert gets that id again, provided the id below it is in use (or
      it was the only row, id 1). */
  lemma NewestIdReused(keys: set<int>, k: int)
    requires k in keys && forall j :: j in keys ==> j <= k
    requires k - 1 in keys || keys == {1}
    ensures NextRowId(keys - {k}) == k
  {
    var rest := keys - {k};
    var n := NextRowId(rest);
    if k - 1 in keys {
      assert k - 1 in rest;
      assert k - 1 < n;
      assert rest != {};
      assert n - 1 in rest;
      assert n - 1 in keys && n - 1 != k;
    } else {
      assert k == 1;
      assert forall j :: j in rest ==> false;
      assert rest == {};
    }
  }
}
