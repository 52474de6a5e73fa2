/** Writing a slice and starting from one (`me_dump.c`, `me_load.c`, `me_persist.c`), step by step. */
module Persist {
  import opened Wrappers
  import opened Decimal
  import opened Balances
  import opened Orders
  import opened Matching
  import opened EngineSpec
  import opened EngineInvariant
  import opened EngineRuns
  import opened MarketStore
  import opened EngineStore
  import opened LedgerStore
  import opened Replay
  import opened Restart
  import opened Tables

  // ----- The tables of a slice

  /** `slice_order_*` and `slice_balance_*` in the order of their primary keys, and the row of `slice_history`. */
  datatype SliceTables = SliceTables(
    orders: seq<Row<OrderRow>>, balances: seq<Row<BalanceRow>>, endOper: nat, endOrder: nat, endDeals: nat)

  ghost function Values<T>(table: seq<Row<T>>): seq<T> {
    seq(|table|, i requires 0 <= i < |table| => table[i].value)
  }

  ghost function SliceOf(t: SliceTables): Slice {
    Slice(Values(t.orders), Values(t.balances), t.endOper, t.endOrder, t.endDeals)
  }

  /** Rows under their primary keys; that of an order row is the id of the order. */
  ghost predicate TablesOk(t: SliceTables) {
    && Keyed(t.orders) && (forall r | r in t.orders :: r.id >= 1 && r.value.id == r.id)
    && Keyed(t.balances) && (forall r | r in t.balances :: r.id >= 1)
  }

  // ----- Dumps

  const BATCH: nat := 1000

  function RowFor(market: nat, o: Order): Row<OrderRow> {
    Row(o.id, RowOf(market, o))
  }

  ghost function SideRows(market: nat, s: seq<Order>): seq<Row<OrderRow>> {
    seq(|s|, j requires 0 <= j < |s| => RowFor(market, s[j]))
  }

  /** `dump_orders_list`: rows collect in one statement, which runs when it has 1000 rows and at the end. */
  method DumpOrdersList(table: seq<Row<OrderRow>>, m: MarketT, market: nat, ids: seq<OrderId>)
    returns (table': seq<Row<OrderRow>>)
    requires m.Valid() && (ids == m.asks || ids == m.bids)
    ensures (forall id | id in ids :: id in m.orders)
    ensures table' == InsertRows(table, SideRows(market, Deref(ids, m.orders)))
  {
    hide RowFor, Sorted, ListsHold, InsertRows;
    table' := table;
    ghost var all := SideRows(market, Deref(ids, m.orders));
    var sql: seq<Row<OrderRow>> := [];
    var i := 0;
    assert [] + all[0..] == all;
    while i < |ids|
      invariant 0 <= i <= |ids| == |all| && |sql| < BATCH
      invariant InsertRows(table', sql + all[i..]) == InsertRows(table, all)
    {
      assert ids[i] in ids;
      assert (sql + [all[i]]) + all[i + 1..] == sql + all[i..];
      sql := sql + [RowFor(market, m.orders[ids[i]])];
      i := i + 1;
      if |sql| == BATCH {
        InsertRowsAppend(table', sql, all[i..]);
        table' := InsertRows(table', sql);
        sql := [];
        assert [] + all[i..] == all[i..];
      }
    }
    assert sql + all[i..] == sql;
    if |sql| > 0 {
      table' := InsertRows(table', sql);
    } else {
      NoRows(table');
    }
  }

  lemma NoRows(table: seq<Row<OrderRow>>)
    ensures InsertRows(table, []) == table
  {
  }

  /** The order table when the first `n` books are written. */
  ghost function BooksTable(books: seq<Book>, n: nat): seq<Row<OrderRow>>
    requires n <= |books|
  {
    if n == 0 then []
    else InsertRows(InsertRows(BooksTable(books, n - 1), SideRows(n - 1, books[n - 1].asks)),
      SideRows(n - 1, books[n - 1].bids))
  }

  /** `dump_orders`: for each market the asks and then the bids, all into one new table. */
  method DumpOrders(e: Engine) returns (table: seq<Row<OrderRow>>)
    requires e.Valid()
    ensures table == BooksTable(e.Abs().books, |e.Abs().books|)
  {
    hide Inv, InsertRows, SideRows, Sorted, ListsHold;
    table := [];
    for i := 0 to |e.markets|
      invariant |e.Abs().books| == |e.markets| && table == BooksTable(e.Abs().books, i)
    {
      var m := e.markets[i];
      assert e.Abs().books[i] == m.View();
      table := DumpOrdersList(table, m, i, m.asks);
      table := DumpOrdersList(table, m, i, m.bids);
    }
  }

  /** An order of the first `n` books is written in this row. */
  ghost predicate WrittenIn(books: seq<Book>, n: nat, r: Row<OrderRow>) {
    exists i, side, o :: 0 <= i < n <= |books| && o in SideOf(books[i], side) && r == RowFor(i, o)
  }

  lemma SideRowsMembers(market: nat, s: seq<Order>)
    ensures forall r :: r in SideRows(market, s) <==> exists o :: o in s && r == RowFor(market, o)
  {
    hide RowOf;
    forall o | o in s ensures RowFor(market, o) in SideRows(market, s) {
      var j :| 0 <= j < |s| && s[j] == o;
      assert SideRows(market, s)[j] == RowFor(market, o);
    }
  }

  /** The order table holds exactly one row for each order, under its id, however the markets come. */
  lemma {:induction false} BooksTableOk(c: Config, st: State, n: nat)
    requires Inv(c, st) && n <= |st.books|
    ensures Keyed(BooksTable(st.books, n)) && forall r :: r in BooksTable(st.books, n) <==> WrittenIn(st.books, n, r)
  {
    hide Keyed, RowFor, Sorted, Resting, Sound, FrozenIsLocked, InsertRows, SideRows, WrittenIn;
    if n == 0 {
      NothingWritten(st.books);
    } else {
      var i, b := n - 1, st.books[n - 1];
      BooksTableOk(c, st, i);
      var before := BooksTable(st.books, i);
      assert BookOk(c.markets[i], b);
      SideRowsMembers(i, b.asks);
      SideRowsMembers(i, b.bids);
      SideRowsApart(c, st, i, ASK);
      SideRowsApart(c, st, i, BID);
      SidesApart(c, st, i);
      InsertRowsKeyed(before, SideRows(i, b.asks));
      InsertRowsKeyed(InsertRows(before, SideRows(i, b.asks)), SideRows(i, b.bids));
      forall r ensures r in BooksTable(st.books, n) <==> WrittenIn(st.books, n, r) {
        WrittenNext(st.books, i, r);
        assert r in before <==> WrittenIn(st.books, i, r);
      }
    }
  }

  lemma NothingWritten(books: seq<Book>)
    ensures Keyed(BooksTable(books, 0)) && forall r :: r in BooksTable(books, 0) <==> WrittenIn(books, 0, r)
  {
  }

  lemma WrittenNext(books: seq<Book>, i: nat, r: Row<OrderRow>)
    requires i < |books|
    ensures WrittenIn(books, i + 1, r)
      <==> WrittenIn(books, i, r) || r in SideRows(i, books[i].asks) || r in SideRows(i, books[i].bids)
  {
    hide RowFor, SideRows;
    SideRowsMembers(i, books[i].asks);
    SideRowsMembers(i, books[i].bids);
    if WrittenIn(books, i + 1, r) {
      var j, side, o :| 0 <= j < i + 1 && o in SideOf(books[j], side) && r == RowFor(j, o);
      assert j < i || (if side == ASK then o in books[i].asks else o in books[i].bids);
    }
    if exists o :: o in books[i].asks && r == RowFor(i, o) {
      var o :| o in books[i].asks && r == RowFor(i, o);
      assert o in SideOf(books[i], ASK);
    }
    if exists o :: o in books[i].bids && r == RowFor(i, o) {
      var o :| o in books[i].bids && r == RowFor(i, o);
      assert o in SideOf(books[i], BID);
    }
  }

  /** The rows of a side have different ids, which no earlier book has used. */
  lemma SideRowsApart(c: Config, st: State, i: nat, side: Side)
    requires Inv(c, st) && i < |st.books|
    ensures var rows := SideRows(i, SideOf(st.books[i], side));
      && (forall j, k | 0 <= j < k < |rows| :: rows[j].id != rows[k].id)
      && (forall x, r | WrittenIn(st.books, i, x) && r in rows :: x.id != r.id)
  {
    hide RowOf, Resting, Sound, FrozenIsLocked;
    var s := SideOf(st.books[i], side);
    assert BookOk(c.markets[i], st.books[i]);
    DistinctIds(s);
    forall x, r | WrittenIn(st.books, i, x) && r in SideRows(i, s) ensures x.id != r.id {
      var j, t, o :| 0 <= j < i && o in SideOf(st.books[j], t) && x == RowFor(j, o);
      var k :| 0 <= k < |s| && r == RowFor(i, s[k]);
      assert Has(st.books, j, t, o.id) && Has(st.books, i, side, s[k].id);
    }
  }

  lemma SidesApart(c: Config, st: State, i: nat)
    requires Inv(c, st) && i < |st.books|
    ensures forall x, r | x in SideRows(i, st.books[i].asks) && r in SideRows(i, st.books[i].bids) :: x.id != r.id
  {
    hide RowOf, Resting, Sound, FrozenIsLocked;
    var b := st.books[i];
    forall x, r | x in SideRows(i, b.asks) && r in SideRows(i, b.bids) ensures x.id != r.id {
      var j :| 0 <= j < |b.asks| && x == RowFor(i, b.asks[j]);
      var k :| 0 <= k < |b.bids| && r == RowFor(i, b.bids[k]);
      assert b.asks[j] in SideOf(b, ASK) && b.bids[k] in SideOf(b, BID);
      assert Has(st.books, i, ASK, b.asks[j].id) && Has(st.books, i, BID, b.bids[k].id);
    }
  }

  /** The rows of the entries that a walk over a dictionary has seen. */
  ghost predicate Walked(b: map<Key, Dec>, rest: map<Key, Dec>, rows: seq<BalanceRow>) {
    && (forall k | k in rest :: k in b)
    && (forall r | r in rows :: r.key in b && r.key !in rest && r.balance == Column(b[r.key], 16))
    && (forall k | k in b && k !in rest :: exists r :: r in rows && r.key == k)
    && (forall i, j | 0 <= i < j < |rows| :: rows[i].key != rows[j].key)
  }

  lemma WalkedNext(b: map<Key, Dec>, rest: map<Key, Dec>, rows: seq<BalanceRow>, k: Key)
    requires Walked(b, rest, rows) && k in rest
    ensures Walked(b, rest - {k}, rows + [BalanceRow(k, Column(b[k], 16))])
  {
    hide Column;
    var row := BalanceRow(k, Column(b[k], 16));
    var rows' := rows + [row];
    assert forall r :: r in rows' <==> r in rows || r == row;
    forall j | j in b && j !in rest - {k} ensures exists r :: r in rows' && r.key == j {
      if j == k {
        assert row in rows';
      } else {
        var r :| r in rows && r.key == j;
        assert r in rows';
      }
    }
  }

  lemma NothingWalked(b: map<Key, Dec>)
    ensures Walked(b, b, [] + []) && Numbered<BalanceRow>(1, []) == []
  {
  }

  lemma NumberedLength<T>(first: nat, values: seq<T>)
    ensures |Numbered(first, values)| == |values|
  {
  }

  /** When the walk is over its rows are a balance table. */
  lemma WalkedTable(l: Ledger, rows: seq<BalanceRow>)
    requires Walked(l.balance, map[], rows)
    ensures var table := Numbered(1, rows);
      BalanceTable(l.Contents(), Values(table)) && Keyed(table) && forall r | r in table :: r.id >= 1
  {
    hide Column;
    assert Values(Numbered(1, rows)) == rows;
  }

  /** `dump_balance_dict`: the same batching over a walk of the balance dictionary. The ids of the rows are
    given by the database. */
  method DumpBalanceDict(l: Ledger) returns (table: seq<Row<BalanceRow>>)
    ensures BalanceTable(l.Contents(), Values(table)) && Keyed(table) && forall r | r in table :: r.id >= 1
  {
    hide Column, Walked, Numbered;
    table := [];
    ghost var stored: seq<BalanceRow> := [];
    var sql: seq<BalanceRow> := [];
    var rest := l.balance;
    NothingWalked(l.balance);
    while rest != map[]
      invariant |sql| < BATCH && table == Numbered(1, stored) && |table| == |stored|
      invariant (forall k | k in rest :: k in l.balance) && Walked(l.balance, rest, stored + sql)
      decreases |rest|
    {
      var k :| k in rest;
      WalkedNext(l.balance, rest, stored + sql, k);
      assert stored + (sql + [BalanceRow(k, Column(l.balance[k], 16))]) == (stored + sql)
        + [BalanceRow(k, Column(l.balance[k], 16))];
      sql := sql + [BalanceRow(k, Column(l.balance[k], 16))];
      rest := rest - {k};
      if |sql| == BATCH {
        NumberedAppend(1, stored, sql);
        NumberedLength(|table| + 1, sql);
        table := table + Numbered(|table| + 1, sql);
        stored := stored + sql;
        sql := [];
        assert stored + sql == stored;
      }
    }
    NumberedAppend(1, stored, sql);
    if |sql| > 0 {
      table := table + Numbered(|table| + 1, sql);
    } else {
      assert stored + sql == stored;
    }
    WalkedTable(l, stored + sql);
  }

  /** `dump_to_db` with `update_slice_history`: what it writes is a slice of the engine, with the last log id. */
  method DumpToDb(e: Engine) returns (t: SliceTables)
    requires e.Valid()
    ensures IsSlice(e.Abs(), SliceOf(t)) && TablesOk(t) && t.endOper == e.operlogIdStart
  {
    hide Inv, BalanceTable, Keyed, BooksTable, OrderTable;
    var orders := DumpOrders(e);
    var balances := DumpBalanceDict(e.ledger);
    t := SliceTables(orders, balances, e.operlogIdStart, e.orderIdStart, e.dealsIdStart);
    DumpedTable(e.c, e.Abs(), orders);
  }

  lemma DumpedTable(c: Config, st: State, table: seq<Row<OrderRow>>)
    requires Inv(c, st) && table == BooksTable(st.books, |st.books|)
    ensures OrderTable(st, Values(table)) && Keyed(table) && forall r | r in table :: r.id >= 1 && r.value.id == r.id
  {
    hide Column, Resting, Sound, FrozenIsLocked, BooksOk;
    BooksTableOk(c, st, |st.books|);
    forall r | r in table ensures r.id >= 1 && r.value.id == r.id && Dumped(st, r.value) {
      var i, side, o :| 0 <= i < |st.books| && o in SideOf(st.books[i], side) && r == RowFor(i, o);
      assert Has(st.books, i, side, o.id);
    }
    forall j | 0 <= j < |table| ensures Values(table)[j].id == table[j].id && Dumped(st, Values(table)[j]) {
      assert table[j] in table;
    }
    forall v ensures v in Values(table) <==> Dumped(st, v) {
      if Dumped(st, v) {
        var i, side, o :| 0 <= i < |st.books| && o in SideOf(st.books[i], side) && v == RowOf(i, o);
        assert WrittenIn(st.books, |st.books|, RowFor(i, o));
        var j :| 0 <= j < |table| && table[j] == RowFor(i, o);
        assert Values(table)[j] == v;
      }
    }
  }

  // ----- Loading a slice

  /** A row that `order_put` accepts on this engine. */
  ghost predicate Loadable(c: Config, r: OrderRow) {
    r.kind == LIMIT && r.market < |c.markets| ==>
      var o := PutForm(c.markets[r.market], r); o.left > 0.0 && o.price > 0.0
  }

  /** Rows under their own ids, and no order of the engine has one of these ids. */
  ghost predicate Loading(e: Engine, table: seq<Row<OrderRow>>, n: nat)
    requires e.Wired() && n <= |table|
    reads e, e.ledger, e.markets
  {
    && Keyed(table) && (forall r | r in table :: r.id >= 1 && r.value.id == r.id && Loadable(e.c, r.value))
    && (forall i, r | 0 <= i < |e.markets| && r in table[n..] :: r.id !in e.markets[i].orders)
  }

  /** `load_orders`: page by page, each row is put on its side, until a page is not full. */
  method LoadOrders(e: Engine, table: seq<Row<OrderRow>>)
    requires e.Wired() && Loading(e, table, 0)
    modifies e.ledger, e.markets
    ensures e.Wired() && e.Abs() == LoadOrderRows(e.c, old(e.Abs()), Values(table))
  {
    hide LoadOrderRows, OrderOf, EngineSpec.OrderPut, PutForm, Keyed, After, Loading;
    assert Keyed(table) && forall r | r in table :: r.id >= 1 && r.value.id == r.id by { LoadingKeyed(e, table, 0); }
    var last := 0;
    ghost var n := 0;
    var more := true;
    assert Values(table)[0..] == Values(table);
    AfterAll(table, 0);
    while more
      invariant n <= |table| && e.Wired() && Loading(e, table, n) && After(table, last) == table[n..]
      invariant LoadOrderRows(e.c, e.Abs(), Values(table)[n..]) == LoadOrderRows(e.c, old(e.Abs()), Values(table))
      invariant !more ==> n == |table|
      decreases more, |table| - n
    {
      var page := Page(table, last);
      var i := 0;
      ghost var n0 := n;
      while i < |page|
        invariant 0 <= i <= |page| && n == n0 + i && n <= |table| && page == table[n0..][..|page|]
        invariant e.Wired() && Loading(e, table, n) && After(table, last) == table[n..]
        invariant LoadOrderRows(e.c, e.Abs(), Values(table)[n..]) == LoadOrderRows(e.c, old(e.Abs()), Values(table))
      {
        assert page[i] == table[n] && table[n] in table;
        last := page[i].id;
        LoadOrder(e, page[i].value, table, n);
        n := n + 1;
        AfterLast(table, n, last);
        i := i + 1;
      }
      more := |page| >= PAGE;
    }
    assert Values(table)[n..] == [];
    LoadNone(e.c, e.Abs());
  }

  lemma LoadingKeyed(e: Engine, table: seq<Row<OrderRow>>, n: nat)
    requires e.Wired() && n <= |table| && Loading(e, table, n)
    ensures Keyed(table) && forall r | r in table :: r.id >= 1 && r.value.id == r.id
  {
  }

  lemma LoadNone(c: Config, st: State)
    requires |c.markets| == |st.books|
    ensures LoadOrderRows(c, st, []) == st
  {
  }

  /** One row of the order table. */
  method LoadOrder(e: Engine, row: OrderRow, ghost table: seq<Row<OrderRow>>, ghost n: nat)
    requires e.Wired() && n < |table| && Loading(e, table, n) && row == table[n].value
    modifies e.ledger, e.markets
    ensures e.Wired() && Loading(e, table, n + 1)
    ensures LoadOrderRows(e.c, e.Abs(), Values(table)[n + 1..]) == LoadOrderRows(e.c, old(e.Abs()), Values(table)[n..])
  {
    hide EngineSpec.OrderPut, Give, SideHolds, ListsHold;
    RowsStep(e.c, e.Abs(), Values(table), n);
    TableStep(table, n);
    assert table[n] in table && table[n] in table[n..];
    if row.market < |e.markets| && row.kind == LIMIT {
      var ok := e.OrderPut(row.market, OrderOf(e.c.markets[row.market], row));
    }
  }

  lemma RowsStep(c: Config, st: State, rows: seq<OrderRow>, n: nat)
    requires |c.markets| == |st.books| && n < |rows|
    ensures LoadOrderRows(c, st, rows[n..]) == LoadOrderRows(c, LoadOrderRow(c, st, rows[n]), rows[n + 1..])
  {
    hide LoadOrderRow;
    assert rows[n..][1..] == rows[n + 1..];
  }

  lemma TableStep(table: seq<Row<OrderRow>>, n: nat)
    requires Keyed(table) && n < |table|
    ensures forall r | r in table[n + 1..] :: r in table[n..] && r.id != table[n].id
  {
    forall r | r in table[n + 1..] ensures r in table[n..] && r.id != table[n].id {
      var j :| 0 <= j < |table[n + 1..]| && table[n + 1..][j] == r;
      assert table[n + 1 + j] == r && table[n..][j + 1] == r;
    }
  }

  /** `load_balance`: page by page, each row of a known asset is set. */
  method LoadBalance(l: Ledger, table: seq<Row<BalanceRow>>)
    requires Keyed(table) && (forall r | r in table :: r.id >= 1)
    modifies l
    ensures l.Contents() == LoadBalanceRows(l.assets, old(l.Contents()), Values(table))
  {
    hide Keyed, Parse, Balances.Set, After, LoadBalanceRows;
    var last := 0;
    ghost var n := 0;
    var more := true;
    assert Values(table)[0..] == Values(table);
    AfterAll(table, 0);
    while more
      invariant n <= |table| && After(table, last) == table[n..] && (!more ==> n == |table|)
      invariant LoadBalanceRows(l.assets, l.Contents(), Values(table)[n..])
        == LoadBalanceRows(l.assets, old(l.Contents()), Values(table))
      decreases more, |table| - n
    {
      var page := Page(table, last);
      var i := 0;
      ghost var n0 := n;
      while i < |page|
        invariant 0 <= i <= |page| && n == n0 + i && n <= |table| && page == table[n0..][..|page|]
          && After(table, last) == table[n..]
        invariant LoadBalanceRows(l.assets, l.Contents(), Values(table)[n..])
          == LoadBalanceRows(l.assets, old(l.Contents()), Values(table))
      {
        assert page[i] == table[n];
        BalanceStep(l.assets, l.Contents(), Values(table), n);
        var row := page[i].value;
        last := page[i].id;
        if row.key.asset in l.assets {
          var ok := l.Set(row.key, Parse(row.balance, l.assets[row.key.asset].precSave));
        }
        n := n + 1;
        AfterLast(table, n, last);
        i := i + 1;
      }
      more := |page| >= PAGE;
    }
    assert Values(table)[n..] == [];
    NoBalanceRows(l.assets, l.Contents());
  }

  lemma NoBalanceRows(assets: Assets, b: Balance)
    ensures LoadBalanceRows(assets, b, []) == b
  {
  }

  lemma BalanceStep(assets: Assets, b: Balance, rows: seq<BalanceRow>, n: nat)
    requires n < |rows|
    ensures LoadBalanceRows(assets, b, rows[n..])
      == LoadBalanceRows(assets, LoadBalanceRow(assets, b, rows[n]), rows[n + 1..])
  {
    hide LoadBalanceRow;
    assert rows[n..][1..] == rows[n + 1..];
  }

  // ----- Replaying the log

  /** `load_operlog` over rows: ids must go on without a gap, and every command must succeed. */
  ghost function ReplayRows(c: Config, st: State, rows: seq<Row<Command>>, last: nat): Option<(State, nat)>
    requires Inv(c, st) && (forall r | r in rows :: Aligned(c, r.value))
    decreases |rows|
  {
    if rows == [] then Some((st, last))
    else if rows[0].id != last + 1 then None
    else
      var r := SafeStep(c, st, rows[0].value, REPLAY);
      if r.reply != Done then None else ReplayRows(c, r.state, rows[1..], rows[0].id)
  }

  lemma {:induction false} AfterMembers<T>(table: seq<Row<T>>, last: nat)
    ensures forall r | r in After(table, last) :: r in table
  {
    if table != [] { AfterMembers(table[1..], last); }
  }

  ghost predicate LogTable(c: Config, table: seq<Row<Command>>) {
    Keyed(table) && forall r | r in table :: Aligned(c, r.value)
  }

  /** `load_operlog`: page by page; a gap in the ids or a failing command stops the restart. */
  method LoadOperlog(e: Engine, table: seq<Row<Command>>, start: nat) returns (ok: bool, last: nat)
    requires e.Valid() && LogTable(e.c, table)
    modifies e.ledger, e.markets, e`orderIdStart, e`dealsIdStart, e`history, e`updates, e`operlogIdStart, e`operlog
    ensures e.Valid() && (forall r | r in After(table, start) :: Aligned(e.c, r.value)) && Inv(e.c, old(e.Abs()))
    ensures var out := ReplayRows(e.c, old(e.Abs()), After(table, start), start);
      ok == out.Some? && (ok ==> (e.Abs(), last) == out.value)
    ensures e.history == old(e.history) && e.operlog == old(e.operlog)
  {
    hide Inv, Keyed, Step, Aligned, After, ReplayRows;
    AfterMembers(table, start);
    ghost var all := After(table, start);
    ghost var out := ReplayRows(e.c, e.Abs(), all, start);
    last := start;
    var more := true;
    ghost var n := 0;
    AfterKeyed(table, start);
    assert all[0..] == all;
    while more
      invariant n <= |all| && e.Valid() && After(table, last) == all[n..] && (!more ==> n == |all|)
      invariant ReplayRows(e.c, e.Abs(), all[n..], last) == out && e.history == old(e.history)
        && e.operlog == old(e.operlog)
      decreases more, |all| - n
    {
      var page := Page(table, last);
      var i := 0;
      ghost var n0 := n;
      while i < |page|
        invariant 0 <= i <= |page| && n == n0 + i && n <= |all| && page == all[n0..][..|page|]
          && After(table, last) == all[n..]
        invariant e.Valid() && ReplayRows(e.c, e.Abs(), all[n..], last) == out
        invariant e.history == old(e.history) && e.operlog == old(e.operlog)
      {
        assert page[i] == all[n] && all[n] in all;
        ReplayStep(e.c, e.Abs(), all, n, last);
        if page[i].id != last + 1 {
          return false, last;
        }
        var reply := e.Handle(page[i].value, REPLAY);
        if reply != Done {
          return false, last;
        }
        AfterNext(table, last, all, n);
        last := page[i].id;
        n := n + 1;
        i := i + 1;
      }
      more := |page| >= PAGE;
    }
    assert all[n..] == [];
    EmptyRows(e.c, e.Abs(), last);
    ok := true;
  }

  lemma ReplayStep(c: Config, st: State, rows: seq<Row<Command>>, n: nat, last: nat)
    requires Inv(c, st) && n < |rows| && (forall r | r in rows :: Aligned(c, r.value))
    ensures BooksPriced(st) && |c.markets| == |st.books| && Aligned(c, rows[n].value)
    ensures var r := Step(c, st, rows[n].value, REPLAY);
      && Inv(c, r.state)
      && ReplayRows(c, st, rows[n..], last)
         == (if rows[n].id != last + 1 || r.reply != Done then None
           else ReplayRows(c, r.state, rows[n + 1..], rows[n].id))
  {
    hide Inv, Step, Aligned;
    InvShape(c, st);
    assert rows[n] in rows;
    var r := SafeStep(c, st, rows[n].value, REPLAY);
    assert rows[n..][1..] == rows[n + 1..];
  }

  lemma {:induction false} AfterKeyed<T>(table: seq<Row<T>>, last: nat)
    requires Keyed(table)
    ensures Keyed(After(table, last)) && forall r | r in After(table, last) :: r.id > last
  {
    if table != [] {
      if table[0].id > last {
        forall r | r in table ensures r.id > last {
          var j :| 0 <= j < |table| && table[j] == r;
          assert j > 0 ==> table[0].id < table[j].id;
        }
      } else {
        AfterKeyed(table[1..], last);
      }
    }
  }

  /** Having read row `n` of what follows, the query continues with row `n + 1`. */
  lemma {:induction false} AfterNext<T>(table: seq<Row<T>>, last: nat, all: seq<Row<T>>, n: nat)
    requires Keyed(table) && n < |all| && After(table, last) == all[n..]
    ensures After(table, all[n].id) == all[n + 1..]
    decreases |table|
  {
    if table != [] {
      if table[0].id > last {
        assert table == all[n..] && table[0] == all[n];
        assert forall j | 1 <= j < |table| :: table[0].id < table[j].id;
        AfterPrefix(table, 1, table[0].id);
        assert table[1..] == all[n + 1..];
      } else {
        AfterMembers(table[1..], last);
        AfterKeyed(table[1..], last);
        assert all[n] in table[1..] && all[n] == all[n..][0];
        AfterNext(table[1..], last, all, n);
      }
    }
  }

  // ----- init_from_db

  /** The log tables of several days, one after the other. */
  ghost function ReplayDays(c: Config, st: State, days: seq<seq<Row<Command>>>, last: nat): Option<(State, nat)>
    requires Inv(c, st) && (forall d | d in days :: LogTable(c, d))
    decreases |days|
  {
    if days == [] then Some((st, last))
    else
      assert LogTable(c, days[0]);
      AfterMembers(days[0], last);
      var r := ReplayRows(c, st, After(days[0], last), last);
      if r.None? then None
      else
        ReplayRowsInv(c, st, After(days[0], last), last);
        ReplayDays(c, r.value.0, days[1..], r.value.1)
  }

  lemma {:induction false} ReplayRowsInv(c: Config, st: State, rows: seq<Row<Command>>, last: nat)
    requires Inv(c, st) && (forall r | r in rows :: Aligned(c, r.value))
    ensures var r := ReplayRows(c, st, rows, last); r.Some? ==> Inv(c, r.value.0)
    decreases |rows|
  {
    hide Inv, Step, Aligned;
    if rows != [] && rows[0].id == last + 1 {
      var r := SafeStep(c, st, rows[0].value, REPLAY);
      if r.reply == Done { ReplayRowsInv(c, r.state, rows[1..], rows[0].id); }
    }
  }

  /** `load_slice_from_db` after the counters: the orders, whose collateral cannot be frozen yet, and then the
    balances, which bring the frozen amounts along. `st` is the state that the slice was taken from. */
  method LoadSlice(e: Engine, t: SliceTables, ghost st: State)
    requires e.Wired() && e.Abs() == InitialState(e.c) && e.orderIdStart == 0
    requires Inv(e.c, st) && BooksFit(st.books) && IsSlice(st, SliceOf(t)) && TablesOk(t)
    modifies e.ledger, e.markets, e`orderIdStart, e`dealsIdStart
    ensures e.Valid() && e.Abs() == Restore(e.c, SliceOf(t))
  {
    hide Inv, BooksFit, LoadOrderRows, LoadBalanceRows, Puttable, RowsFresh, SidesSorted, Values, BalanceTable,
      OrderTable, PutForm, SideHolds, ListsHold, StatesAlike;
    var s := SliceOf(t);
    TableLoads(e.c, st, s);
    AllLoadable(e.c, st, t.orders);
    e.orderIdStart, e.dealsIdStart := t.endOrder, t.endDeals;
    assert e.Abs() == Blank(e.c, s);
    BlankDictionaries(e);
    LoadAllOrders(e.c, Blank(e.c, s), s.orders);
    LoadOrders(e, t.orders);
    LoadBalance(e.ledger, t.balances);
    RestoredInv(e.c, st, s);
    assert e.Abs() == Restore(e.c, s);
  }

  lemma AllLoadable(c: Config, st: State, table: seq<Row<OrderRow>>)
    requires Inv(c, st) && BooksFit(st.books) && OrderTable(st, Values(table))
    ensures forall r | r in table :: Loadable(c, r.value)
  {
    hide Mul, RowOf, PutForm, Sound, FrozenIsLocked, IdsOk, LimitOk, OrderFits, Stored, Sorted;
    forall r | r in table ensures Loadable(c, r.value) {
      var k :| 0 <= k < |table| && table[k] == r;
      assert Values(table)[k] == r.value;
      assert Dumped(st, r.value);
      var i, side, o :| 0 <= i < |st.books| && o in SideOf(st.books[i], side) && r.value == RowOf(i, o);
      RowsOfBook(c, st, i, side, o);
      assert SideFits(SideOf(st.books[i], side)) && BookOk(c.markets[i], st.books[i]);
      assert Resting(c.markets[i], o, side);
      StoredRest(c.markets[i], o, side);
    }
  }

  lemma StoredRest(m: Market, o: Order, side: Side)
    requires Resting(m, o, side)
    ensures Stored(o).left > 0.0 && Stored(o).price > 0.0
  {
  }

  lemma BlankDictionaries(e: Engine)
    requires e.Wired() && forall b | b in e.Abs().books :: b == Book([], [])
    ensures forall i | 0 <= i < |e.markets| :: e.markets[i].orders == map[]
  {
    hide ListsHold, Sorted;
    forall i | 0 <= i < |e.markets| ensures e.markets[i].orders == map[] {
      var m := e.markets[i];
      assert e.Abs().books[i] == m.View();
      assert e.Abs().books[i] in e.Abs().books;
      assert |m.asks| == 0 && |m.bids| == 0 by {
        DerefLength(m.asks, m.orders, ASK);
        DerefLength(m.bids, m.orders, BID);
      }
      assert forall id :: id !in m.orders;
    }
  }

  /** `init_from_db` with a slice: restore it, then replay the log tables from its day to today. */
  method InitFromSlice(e: Engine, t: SliceTables, days: seq<seq<Row<Command>>>, ghost st: State)
    returns (ok: bool, operId: nat)
    requires e.Wired() && e.Abs() == InitialState(e.c) && e.orderIdStart == 0
    requires Inv(e.c, st) && BooksFit(st.books) && IsSlice(st, SliceOf(t)) && TablesOk(t)
    requires forall d | d in days :: LogTable(e.c, d)
    modifies e, e.ledger, e.markets
    ensures e.Valid() && Inv(e.c, Restore(e.c, SliceOf(t)))
    ensures var out := ReplayDays(e.c, Restore(e.c, SliceOf(t)), days, t.endOper);
      ok == out.Some? && (ok ==> (e.Abs(), operId) == out.value)
    ensures e.history == old(e.history) && e.operlog == old(e.operlog) && (ok ==> e.operlogIdStart == operId)
  {
    hide Inv, Restore, BooksFit, IsSlice, TablesOk, LogTable, ReplayRows, Keyed;
    LoadSlice(e, t, st);
    ghost var out := ReplayDays(e.c, e.Abs(), days, t.endOper);
    operId := t.endOper;
    var i := 0;
    assert days[0..] == days;
    while i < |days|
      invariant 0 <= i <= |days| && e.Valid() && (forall d | d in days[i..] :: LogTable(e.c, d))
      invariant ReplayDays(e.c, e.Abs(), days[i..], operId) == out && e.history == old(e.history)
        && e.operlog == old(e.operlog)
    {
      assert days[i..][0] == days[i] && days[i..][1..] == days[i + 1..] && days[i] in days;
      forall d | d in days[i + 1..] ensures LogTable(e.c, d) { assert d in days[i..]; }
      ghost var before := e.Abs();
      AfterMembers(days[i], operId);
      assert LogTable(e.c, days[i]);
      ok, operId := LoadOperlog(e, days[i], operId);
      if !ok {
        return;
      }
      i := i + 1;
    }
    e.StartOperlog(operId);
    ok := true;
  }

  // ----- What the log tables of a run replay to

  ghost function Concat(days: seq<seq<Row<Command>>>): seq<Row<Command>> {
    if days == [] then [] else days[0] + Concat(days[1..])
  }

  lemma {:induction false} ReplayRowsIsLog(c: Config, st: State, rows: seq<Row<Command>>, last: nat, cmds: seq<Command>)
    requires Inv(c, st) && rows == Numbered(last + 1, cmds) && (forall cmd | cmd in cmds :: Aligned(c, cmd))
    ensures forall r | r in rows :: Aligned(c, r.value)
    ensures ReplayRows(c, st, rows, last)
      == match ReplayLog(c, st, cmds) case None => None case Some(s) => Some((s, last + |cmds|))
    decreases |rows|
  {
    hide Inv, Step, Aligned;
    forall r | r in rows ensures Aligned(c, r.value) {
      var k :| 0 <= k < |rows| && rows[k] == r;
      assert cmds[k] in cmds;
    }
    if rows != [] {
      var r := SafeStep(c, st, cmds[0], REPLAY);
      if r.reply == Done {
        assert rows[1..] == Numbered(last + 2, cmds[1..]);
        ReplayRowsIsLog(c, r.state, rows[1..], last + 1, cmds[1..]);
      }
    }
  }

  lemma {:induction false} ReplayLogAppend(c: Config, st: State, x: seq<Command>, y: seq<Command>)
    requires Inv(c, st) && (forall cmd | cmd in x + y :: Aligned(c, cmd))
    ensures (forall cmd | cmd in x :: Aligned(c, cmd)) && (forall cmd | cmd in y :: Aligned(c, cmd))
    ensures var r := ReplayLog(c, st, x);
      && (r.Some? ==> Inv(c, r.value))
      && ReplayLog(c, st, x + y) == (if r.None? then None else ReplayLog(c, r.value, y))
    decreases |x|
  {
    hide Inv, Step, Aligned;
    assert (forall cmd | cmd in x :: cmd in x + y) && (forall cmd | cmd in y :: cmd in x + y);
    if x == [] {
      assert x + y == y;
    } else {
      assert (x + y)[1..] == x[1..] + y;
      var r := SafeStep(c, st, x[0], REPLAY);
      if r.reply == Done { ReplayLogAppend(c, r.state, x[1..], y); }
    }
  }

  /** A day that starts with rows that are read already and goes on with the next ones. */
  lemma DayReplays(c: Config, st: State, day: seq<Row<Command>>, past: seq<Row<Command>>, now: seq<Command>, last: nat)
    requires Inv(c, st) && Keyed(day) && day == past + Numbered(last + 1, now)
    requires (forall r | r in past :: r.id <= last) && (forall cmd | cmd in now :: Aligned(c, cmd))
    ensures forall r | r in After(day, last) :: Aligned(c, r.value)
    ensures ReplayRows(c, st, After(day, last), last)
      == match ReplayLog(c, st, now) case None => None case Some(s) => Some((s, last + |now|))
  {
    hide Inv, Aligned, ReplayLog, ReplayRows, Keyed;
    forall k | 0 <= k < |past| ensures day[k].id <= last {
      assert day[k] == past[k] && past[k] in past;
    }
    AfterPrefix(day, |past|, last);
    assert day[|past|..] == Numbered(last + 1, now);
    ReplayRowsIsLog(c, st, day[|past|..], last, now);
  }

  /** Day tables that hold, after rows that are read already, the rows of further commands replay to these. */
  lemma {:induction false} ReplayDaysIsLog(c: Config, st: State, days: seq<seq<Row<Command>>>, past: seq<Row<Command>>,
                                           recent: seq<Command>, last: nat)
    requires Inv(c, st) && (forall d | d in days :: LogTable(c, d)) && (forall cmd | cmd in recent :: Aligned(c, cmd))
    requires Concat(days) == past + Numbered(last + 1, recent) && (forall r | r in past :: r.id <= last)
    ensures ReplayDays(c, st, days, last)
      == match ReplayLog(c, st, recent) case None => None case Some(s) => Some((s, last + |recent|))
    decreases |days|
  {
    hide Inv, Aligned, ReplayLog, ReplayRows, Concat, After, Keyed;
    if days == [] {
      NoDays(past, last + 1, recent);
      EmptyReplay(c, st);
    } else {
      var day, n := days[0], |days[0]|;
      assert day in days && LogTable(c, day);
      FirstDay(days, past, last + 1, recent);
      if n <= |past| {
        forall r | r in past[..n] || r in past[n..] ensures r.id <= last { assert r in past; }
        assert day == past[..n] + Numbered(last + 1, []);
        DayReplays(c, st, day, past[..n], [], last);
        EmptyReplay(c, st);
        ReplayDaysIsLog(c, st, days[1..], past[n..], recent, last);
      } else {
        var k := n - |past|;
        var now, later := recent[..k], recent[k..];
        assert recent == now + later && [] + Numbered(last + k + 1, later) == Numbered(last + k + 1, later);
        ReplayLogAppend(c, st, now, later);
        DayReplays(c, st, day, past, now, last);
        var r := ReplayLog(c, st, now);
        if r.Some? { ReplayDaysIsLog(c, r.value, days[1..], [], later, last + k); }
      }
    }
  }

  lemma NoDays(past: seq<Row<Command>>, first: nat, recent: seq<Command>)
    requires Concat([]) == past + Numbered(first, recent)
    ensures recent == []
  {
    assert |Numbered(first, recent)| == |recent|;
  }

  /** The first day ends within the rows before `first`, or among those after them. */
  lemma FirstDay(days: seq<seq<Row<Command>>>, past: seq<Row<Command>>, first: nat, recent: seq<Command>)
    requires days != [] && Concat(days) == past + Numbered(first, recent)
    ensures var n := |days[0]|;
      && n <= |past| + |recent|
      && (n <= |past| ==> days[0] == past[..n] && Concat(days[1..]) == past[n..] + Numbered(first, recent))
      && (n > |past| ==>
            var k := n - |past|;
            days[0] == past + Numbered(first, recent[..k]) && Concat(days[1..]) == Numbered(first + k, recent[k..]))
  {
    var n, all := |days[0]|, past + Numbered(first, recent);
    assert days[0] == all[..n] && Concat(days[1..]) == all[n..];
    if n > |past| {
      var k := n - |past|;
      assert recent == recent[..k] + recent[k..];
      NumberedAppend(first, recent[..k], recent[k..]);
    }
  }

  lemma EmptyReplay(c: Config, st: State)
    requires Inv(c, st)
    ensures ReplayLog(c, st, []) == Some(st)
  {
  }

  lemma EmptyRows(c: Config, st: State, last: nat)
    requires Inv(c, st)
    ensures ReplayRows(c, st, [], last) == Some((st, last))
  {
  }

  /** `init_from_db` without a slice reads the log of today only. If that is not the whole log, the restart
    fails, or, before the first command of the day, starts from nothing. */
  lemma RestartWithoutSlice(c: Config, first: nat, today: seq<Row<Command>>, cmds: seq<Command>)
    requires ConfigOk(c) && first >= 1 && today == Numbered(first, cmds)
      && (forall cmd | cmd in cmds :: Aligned(c, cmd))
    ensures Inv(c, InitialState(c)) && forall r | r in today :: Aligned(c, r.value)
    ensures var r := ReplayRows(c, InitialState(c), today, 0);
      && (first > 1 && cmds != [] ==> r == None)
      && (first > 1 && cmds == [] ==> r == Some((InitialState(c), 0)))
      && (first == 1 ==> r == match ReplayLog(c, InitialState(c),
        cmds) case None => None case Some(s) => Some((s, |cmds|)))
  {
    hide Inv, Aligned, ReplayLog, Step;
    InitialInv(c);
    forall r | r in today ensures Aligned(c, r.value) {
      var k :| 0 <= k < |today| && today[k] == r;
      assert cmds[k] in cmds;
    }
    if first == 1 { ReplayRowsIsLog(c, InitialState(c), today, 0, cmds); }
  }

  /** The whole restart, from the tables. An engine that satisfies the invariant is dumped and runs on. The day
    tables from the slice on hold the rows of the log, some of which may be older than the slice. Then
    `init_from_db` succeeds exactly when the log after the slice repeats no update key, ends with the books,
    balances, order and deal counters of the live engine up to digits of recorded fees, and goes on with the
    next log id. */
  lemma RestartFromDays(c: Config, st: State, after: seq<Event>, s: Slice, days: seq<seq<Row<Command>>>,
          past: seq<Row<Command>>)
    requires Inv(c, st) && AllAligned(c, after) && ReadSame(c, Run(c, st, after).log)
    requires IsSlice(st, s) && BooksFit(st.books) && BalancesFit(st.balance) && (forall d | d in days :: LogTable(c, d))
    requires Concat(days) == past + Numbered(s.endOper + 1, Run(c, st, after).log)
      && (forall r | r in past :: r.id <= s.endOper)
    ensures Inv(c, Restore(c, s))
    ensures var live, back := Run(c, st, after), ReplayDays(c, Restore(c, s), days, s.endOper);
      && (back.Some? <==> NoRepeat(live.log, {}))
      && (back.Some? ==> StatesAlike(live.state, back.value.0) && back.value.1 == s.endOper + |live.log|)
  {
    hide Inv, Run, Restore, StatesAlike, NoRepeat, IsSlice, Aligned, ReadSame, ReplayLog, ReplayDays, Concat, LogTable,
      Numbered,
      BooksFit, BalancesFit;
    RestartMatchesLive(c, st, after, s);
    ReplayDaysIsLog(c, Restore(c, s), days, past, Run(c, st, after).log, s.endOper);
  }
}
