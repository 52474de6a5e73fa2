/** Tables read page by page in the order of their keys (the paging loops of `me_load.c`). */
module Tables {

  datatype Row<T> = Row(id: nat, value: T)

  const PAGE: nat := 1000

  /** The primary key: ids grow along the table. */
  ghost predicate Keyed<T>(table: seq<Row<T>>) {
    forall i, j | 0 <= i < j < |table| :: table[i].id < table[j].id
  }

  /** The rows with an id above `last`. */
  function After<T>(table: seq<Row<T>>, last: nat): seq<Row<T>> {
    if table == [] then [] else if table[0].id > last then table else After(table[1..], last)
  }

  /** `WHERE id > last ORDER BY id LIMIT 1000` */
  function Page<T>(table: seq<Row<T>>, last: nat): seq<Row<T>> {
    var rest := After(table, last);
    if |rest| <= PAGE then rest else rest[..PAGE]
  }

  lemma {:induction false} AfterPrefix<T>(table: seq<Row<T>>, n: nat, last: nat)
    requires Keyed(table) && n <= |table|
    requires (forall i | 0 <= i < n :: table[i].id <= last) && (n < |table| ==> table[n].id > last)
    ensures After(table, last) == table[n..]
  {
    if n > 0 {
      AfterPrefix(table[1..], n - 1, last);
      assert table[1..][n - 1..] == table[n..];
    } else {
      assert table[0..] == table;
    }
  }

  /** Going on from the last id that was read continues with the next row. */
  lemma AfterLast<T>(table: seq<Row<T>>, n: nat, last: nat)
    requires Keyed(table) && n <= |table|
    requires if n == 0 then forall r | r in table :: r.id > last else last == table[n - 1].id
    ensures After(table, last) == table[n..]
  {
    if n < |table| { assert table[n] in table; }
    AfterPrefix(table, n, last);
  }

  lemma {:induction false} AfterAll<T>(table: seq<Row<T>>, last: nat)
    requires forall r | r in table :: r.id > last
    ensures After(table, last) == table
  {
    if table != [] { assert table[0] in table; }
  }

  // ----- Writing

  /** Rows with consecutive ids from `first`, one for each value, as AUTO_INCREMENT or a counter gives them. */
  function Numbered<T>(first: nat, values: seq<T>): seq<Row<T>> {
    seq(|values|, k requires 0 <= k < |values| => Row(first + k, values[k]))
  }

  lemma NumberedAppend<T>(first: nat, x: seq<T>, y: seq<T>)
    ensures Numbered(first, x + y) == Numbered(first, x) + Numbered(first + |x|, y)
  {
  }

  /** A new row takes its place in the order of the primary key. */
  function InsertRow<T>(table: seq<Row<T>>, r: Row<T>): seq<Row<T>> {
    if table == [] then [r]
    else if table[0].id < r.id then [table[0]] + InsertRow(table[1..], r)
    else [r] + table
  }

  /** A statement that inserts several rows. */
  function InsertRows<T>(table: seq<Row<T>>, rows: seq<Row<T>>): seq<Row<T>>
    decreases |rows|
  {
    if rows == [] then table else InsertRows(InsertRow(table, rows[0]), rows[1..])
  }

  lemma {:induction false} InsertRowsAppend<T>(table: seq<Row<T>>, x: seq<Row<T>>, y: seq<Row<T>>)
    ensures InsertRows(table, x + y) == InsertRows(InsertRows(table, x), y)
    decreases |x|
  {
    if x == [] {
      assert x + y == y;
    } else {
      assert (x + y)[1..] == x[1..] + y;
      InsertRowsAppend(InsertRow(table, x[0]), x[1..], y);
    }
  }

  lemma KeyedTail<T(!new)>(table: seq<Row<T>>)
    requires Keyed(table) && table != []
    ensures Keyed(table[1..]) && (forall x | x in table[1..] :: table[0].id < x.id)
    ensures forall x :: x in table <==> x == table[0] || x in table[1..]
  {
    assert table == [table[0]] + table[1..];
    forall x | x in table[1..] ensures table[0].id < x.id {
      var j :| 0 <= j < |table[1..]| && table[1..][j] == x;
      assert table[j + 1] == x;
    }
  }

  lemma KeyedCons<T(!new)>(r: Row<T>, table: seq<Row<T>>)
    requires Keyed(table) && forall x | x in table :: r.id < x.id
    ensures Keyed([r] + table) && forall x :: x in [r] + table <==> x == r || x in table
  {
    var all := [r] + table;
    forall i, j | 0 <= i < j < |all| ensures all[i].id < all[j].id {
      assert all[j] == table[j - 1] && table[j - 1] in table;
    }
  }

  lemma {:induction false} InsertRowKeyed<T(!new)>(table: seq<Row<T>>, r: Row<T>)
    requires Keyed(table) && forall x | x in table :: x.id != r.id
    ensures Keyed(InsertRow(table, r)) && forall x :: x in InsertRow(table, r) <==> x == r || x in table
  {
    if table != [] {
      KeyedTail(table);
      if table[0].id < r.id {
        InsertRowKeyed(table[1..], r);
        forall x | x in InsertRow(table[1..], r) ensures table[0].id < x.id {}
        KeyedCons(table[0], InsertRow(table[1..], r));
      } else {
        KeyedCons(r, table);
      }
    }
  }

  /** Rows with new and different ids: the table gets exactly them, and stays in order. */
  lemma {:induction false} InsertRowsKeyed<T(!new)>(table: seq<Row<T>>, rows: seq<Row<T>>)
    requires Keyed(table) && (forall i, j | 0 <= i < j < |rows| :: rows[i].id != rows[j].id)
    requires forall x, r | x in table && r in rows :: x.id != r.id
    ensures Keyed(InsertRows(table, rows)) && forall x :: x in InsertRows(table, rows) <==> x in table || x in rows
    decreases |rows|
  {
    hide Keyed;
    if rows != [] {
      var r, rest := rows[0], rows[1..];
      assert r in rows && rows == [r] + rest;
      InsertRowKeyed(table, r);
      forall x | x in rest ensures x in rows && x.id != r.id {
        var j :| 0 <= j < |rest| && rest[j] == x;
        assert rows[j + 1] == x;
      }
      forall x, y | x in InsertRow(table, r) && y in rest ensures x.id != y.id {
        assert x == r || x in table;
      }
      InsertRowsKeyed(InsertRow(table, r), rest);
    }
  }
}
