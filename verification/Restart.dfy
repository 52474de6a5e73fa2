/** Slices, the operation log, and what a restart restores (`me_dump.c`, `me_load.c`, `me_persist.c`). */
module Restart {
  import opened Wrappers
  import opened Decimal
  import opened Balances
  import opened Orders
  import opened Matching
  import opened EngineSpec
  import opened EngineInvariant
  import opened EngineRuns
  import opened Replay

  // ----- Rows

  datatype OrderRow = OrderRow(
    id: OrderId, kind: OrderType, side: Side, user: UserId, market: nat,
    price: Dec, amount: Dec, takerFee: Dec, makerFee: Dec, left: Dec, freeze: Dec,
    dealStock: Dec, dealMoney: Dec, dealFee: Dec)

  datatype BalanceRow = BalanceRow(key: Key, balance: Dec)

  /** `slice_order_*`, `slice_balance_*` and the row of `slice_history`. */
  datatype Slice = Slice(orders: seq<OrderRow>, balances: seq<BalanceRow>, endOper: nat, endOrder: nat, endDeals: nat)

  /** A DECIMAL column keeps `scale` digits and rounds half away from zero. */
  function Column(x: Dec, scale: nat): Dec {
    if x >= 0.0 then Truncate(x + Unit(scale) / 2.0, scale) else -Truncate(-x + Unit(scale) / 2.0, scale)
  }

  /** What a column holds is on its grid, and at most half a unit away from the number. */
  lemma ColumnNearest(x: Dec, scale: nat)
    requires x >= 0.0
    ensures Column(x, scale) >= 0.0 && OnGrid(Column(x, scale), scale)
    ensures x - Unit(scale) / 2.0 < Column(x, scale) <= x + Unit(scale) / 2.0
  {
    hide OnGrid, Truncate;
    TruncateIsFloor(x + Unit(scale) / 2.0, scale);
  }

  /** A column keeps a number as it is if and only if its digits fit. */
  lemma ColumnExact(x: Dec, scale: nat)
    requires x >= 0.0
    ensures Column(x, scale) == x <==> OnGrid(x, scale)
  {
    hide OnGrid, Truncate;
    ColumnNearest(x, scale);
    if OnGrid(x, scale) {
      if x < Column(x, scale) { GridGap(x, Column(x, scale), scale); }
      if Column(x, scale) < x { GridGap(Column(x, scale), x, scale); }
    }
  }

  /** Reading a column back with the precision of the number keeps the number if and only if its digits fit
    the column, whichever of the two is finer. */
  lemma ReadBackIff(x: Dec, prec: nat, scale: nat)
    requires x >= 0.0 && OnGrid(x, prec)
    ensures Parse(Column(x, scale), prec) == x <==> OnGrid(x, scale)
    ensures Parse(Column(x, scale), prec) >= 0.0
  {
    hide OnGrid, Truncate, Column;
    ColumnNearest(x, scale);
    ColumnExact(x, scale);
    if prec <= scale {
      OnGridFiner(x, prec, scale);
      TruncateExact(x, prec);
    } else {
      OnGridFiner(Column(x, scale), scale, prec);
      TruncateExact(Column(x, scale), prec);
    }
  }

  /** `dump_orders_list` writes an order of market `i` through the columns of the table. */
  function RowOf(i: nat, o: Order): OrderRow {
    OrderRow(o.id, o.kind, o.side, o.user, i, Column(o.price, 8), Column(o.amount, 8),
             Column(o.takerFee, 4), Column(o.makerFee, 4), Column(o.left, 8), Column(o.freeze, 8),
             Column(o.dealStock, 8), Column(o.dealMoney, 16), Column(o.dealFee, 12))
  }

  /** `load_orders` reads an order back. */
  function OrderOf(m: Market, r: OrderRow): Order {
    Order(r.id, r.kind, r.side, r.user, Parse(r.price, m.moneyPrec), Parse(r.amount, m.stockPrec),
          Parse(r.takerFee, m.feePrec), Parse(r.makerFee, m.feePrec), Parse(r.left, m.stockPrec),
          r.freeze, r.dealStock, r.dealMoney, r.dealFee)
  }

  /** The order that a row puts on its side: its collateral is computed anew. */
  function PutForm(m: Market, r: OrderRow): Order {
    var o := OrderOf(m, r);
    o.(freeze := Give(o.side, o.price, o.left))
  }

  /** All that a slice loses of an open order whose digits fit: digits of the recorded fee beyond its column. */
  function Stored(o: Order): Order {
    o.(dealFee := Column(o.dealFee, 12))
  }

  /** The digits of an order fit the columns of `slice_order_example`. Its frozen amount and its recorded fee
    need not. */
  predicate OrderFits(o: Order) {
    && OnGrid(o.price, 8) && OnGrid(o.amount, 8) && OnGrid(o.left, 8) && OnGrid(o.takerFee, 4) && OnGrid(o.makerFee, 4)
    && OnGrid(o.dealStock, 8) && OnGrid(o.dealMoney, 16)
  }

  /** A row puts back the order it was written from, but for its recorded fee, if and only if the digits fit. */
  lemma RowRoundTrip(m: Market, i: nat, o: Order, side: Side)
    requires Resting(m, o, side)
    ensures var p := PutForm(m, RowOf(i, o));
      && (p == Stored(o) <==> OrderFits(o))
      && p.id == o.id && p.kind == LIMIT && p.side == side && p.left >= 0.0 && p.price >= 0.0
      && p.dealFee == Column(o.dealFee, 12)
  {
    hide Mul, Column, Parse, OnGrid;
    OnGridAdd(o.dealStock, o.left, m.stockPrec);
    ReadBackIff(o.price, m.moneyPrec, 8);
    ReadBackIff(o.amount, m.stockPrec, 8);
    ReadBackIff(o.left, m.stockPrec, 8);
    ReadBackIff(o.takerFee, m.feePrec, 4);
    ReadBackIff(o.makerFee, m.feePrec, 4);
    ColumnExact(o.dealStock, 8);
    ColumnExact(o.dealMoney, 16);
  }

  ghost predicate SideFits(s: seq<Order>) {
    forall o | o in s :: OrderFits(o)
  }

  ghost predicate BooksFit(books: seq<Book>) {
    forall i, side | 0 <= i < |books| :: SideFits(SideOf(books[i], side))
  }

  /** Markets whose digits fit the columns, as those of `bin/matchengine/config.json` do. */
  predicate FitsSchema(c: Config) {
    forall m | m in c.markets :: m.stockPrec <= 8 && m.moneyPrec <= 8 && m.feePrec <= 4
  }

  lemma RestingFits(m: Market, o: Order, side: Side)
    requires Resting(m, o, side) && m.stockPrec <= 8 && m.moneyPrec <= 8 && m.feePrec <= 4
    ensures OrderFits(o)
  {
    hide Mul, OnGrid;
    OnGridAdd(o.dealStock, o.left, m.stockPrec);
    OnGridFiner(o.price, m.moneyPrec, 8);
    OnGridFiner(o.amount, m.stockPrec, 8);
    OnGridFiner(o.left, m.stockPrec, 8);
    OnGridFiner(o.takerFee, m.feePrec, 4);
    OnGridFiner(o.makerFee, m.feePrec, 4);
    OnGridFiner(o.dealStock, m.stockPrec, 8);
    OnGridFiner(o.dealMoney, m.stockPrec + m.moneyPrec, 16);
  }

  /** In such markets every open order fits. */
  lemma SchemaFits(c: Config, st: State)
    requires Inv(c, st) && FitsSchema(c)
    ensures BooksFit(st.books)
  {
    hide Mul, OnGrid, Sound, FrozenIsLocked, IdsOk, OrderFits, Resting, Sorted;
    forall i, side | 0 <= i < |st.books| ensures SideFits(SideOf(st.books[i], side)) {
      assert BookOk(c.markets[i], st.books[i]) && c.markets[i] in c.markets;
      forall o | o in SideOf(st.books[i], side) ensures OrderFits(o) {
        RestingFits(c.markets[i], o, side);
      }
    }
  }

  // ----- The order table

  ghost predicate Dumped(st: State, r: OrderRow) {
    exists i, side, o :: 0 <= i < |st.books| && o in SideOf(st.books[i], side) && r == RowOf(i, o)
  }

  /** The rows of the order table in the order of their primary key. */
  ghost predicate OrderTable(st: State, rows: seq<OrderRow>) {
    && (forall j, k | 0 <= j < k < |rows| :: rows[j].id < rows[k].id)
    && (forall r :: r in rows <==> Dumped(st, r))
  }

  /** `load_orders`, one row: an unknown market is passed over, and only limit orders are put. Freezing the
    collateral fails, because balances are loaded later, and the failure is ignored. */
  function LoadOrderRow(c: Config, st: State, r: OrderRow): State
    requires |c.markets| == |st.books|
  {
    if r.market >= |c.markets| || r.kind != LIMIT then st
      else OrderPut(c, st, r.market, OrderOf(c.markets[r.market], r))
  }

  function LoadOrderRows(c: Config, st: State, rows: seq<OrderRow>): State
    requires |c.markets| == |st.books|
    decreases |rows|
  {
    if rows == [] then st else LoadOrderRows(c, LoadOrderRow(c, st, rows[0]), rows[1..])
  }

  /** Some row puts this order on this side of this book. */
  ghost predicate PutBy(c: Config, rows: seq<OrderRow>, i: nat, side: Side, o: Order)
    requires i < |c.markets|
  {
    exists r :: r in rows && r.market == i && r.side == side && o == PutForm(c.markets[i], r)
  }

  /** Rows that can be put: limit orders of known markets. */
  ghost predicate Puttable(c: Config, r: OrderRow) {
    && r.kind == LIMIT && r.market < |c.markets|
    && var o := PutForm(c.markets[r.market], r); o.left >= 0.0 && o.price >= 0.0
  }

  ghost predicate RowsFresh(st: State, rows: seq<OrderRow>) {
    && (forall j, k | 0 <= j < k < |rows| :: rows[j].id != rows[k].id)
    && (forall r, i, side, o | r in rows && 0 <= i < |st.books| && o in SideOf(st.books[i], side) :: o.id != r.id)
  }

  ghost predicate SidesSorted(st: State) {
    forall i, side | 0 <= i < |st.books| ::
      Sorted(SideOf(st.books[i], side)) && OneSide(SideOf(st.books[i], side), side)
  }

  lemma LoadOneOrder(c: Config, st: State, rows: seq<OrderRow>)
    requires |c.markets| == |st.books| && rows != [] && (forall r | r in rows :: Puttable(c, r))
    requires st.balance == map[] && SidesSorted(st) && RowsFresh(st, rows)
    ensures var st', r := LoadOrderRow(c, st, rows[0]), rows[0];
      && r.market < |c.markets|
      && |st'.books| == |st.books| && SidesSorted(st') && RowsFresh(st', rows[1..])
      && st' == st.(books := st'.books)
      && (forall i, side, o | 0 <= i < |st.books| :: o in SideOf(st'.books[i], side)
            <==> o in SideOf(st.books[i], side) || (i == r.market && side == r.side && o == PutForm(c.markets[i], r)))
  {
    hide Mul, OrderOf, SidesSorted, RowsFresh, Sorted, OneSide, Give, Move;
    var r := rows[0];
    assert r in rows && Puttable(c, r);
    var i, o := r.market, OrderOf(c.markets[r.market], r);
    var p, s := PutForm(c.markets[i], r), SideOf(st.books[i], r.side);
    var st' := LoadOrderRow(c, st, r);
    RowFields(c, r);
    GiveNonNeg(o.side, o.price, o.left);
    FailedMove(c.assets, o.user, GiveAsset(c.markets[i], o.side), Give(o.side, o.price, o.left));
    assert st'.books == st.books[i := WithSide(st.books[i], r.side, Insert(s, p))];
    assert st'.balance == st.balance;
    InsertElements(s, p);
    FreshRow(st, rows);
    SortedStep(st, st', i, r.side, p);
    FreshStep(st, st', rows, i, p);
  }

  lemma GiveNonNeg(side: Side, price: Dec, left: Dec)
    requires price >= 0.0 && left >= 0.0
    ensures Give(side, price, left) >= 0.0
  {
    hide Mul;
    MulMono(0.0, price, 0.0, left);
  }

  /** On an empty ledger nothing can be moved, and moving nothing leaves it empty. */
  lemma FailedMove(assets: Assets, user: UserId, asset: Asset, amount: Dec)
    requires amount >= 0.0
    ensures Move(assets, map[], user, asset, AVAILABLE, amount).balance == map[]
  {
    if asset in assets {
      OnGridZero(assets[asset].precSave);
      TruncateExact(0.0, assets[asset].precSave);
    }
  }

  lemma FreshRow(st: State, rows: seq<OrderRow>)
    requires rows != [] && RowsFresh(st, rows)
    ensures forall i, side, o | 0 <= i < |st.books| && o in SideOf(st.books[i], side) :: o.id != rows[0].id
  {
    assert rows[0] in rows;
  }

  lemma SortedStep(st: State, st': State, i: nat, side: Side, p: Order)
    requires SidesSorted(st) && i < |st.books| && p.kind == LIMIT && p.side == side
    requires forall x | x in SideOf(st.books[i], side) :: x.id != p.id
    requires st'.books == st.books[i := WithSide(st.books[i], side, Insert(SideOf(st.books[i], side), p))]
    ensures SidesSorted(st')
  {
    hide Sorted, OneSide, Insert;
    assert Sorted(SideOf(st.books[i], side)) && OneSide(SideOf(st.books[i], side), side);
    InsertSorted(SideOf(st.books[i], side), p, side);
    forall j, t | 0 <= j < |st'.books|
      ensures Sorted(SideOf(st'.books[j], t)) && OneSide(SideOf(st'.books[j], t), t)
    {
      assert (j == i && t == side) || SideOf(st'.books[j], t) == SideOf(st.books[j], t);
    }
  }

  lemma FreshStep(st: State, st': State, rows: seq<OrderRow>, i: nat, p: Order)
    requires rows != [] && RowsFresh(st, rows) && |st'.books| == |st.books| && p.id == rows[0].id
    requires forall j, side, o | 0 <= j < |st.books| && o in SideOf(st'.books[j], side) ::
      o in SideOf(st.books[j], side) || o == p
    ensures RowsFresh(st', rows[1..])
  {
    forall r, j, side, o | r in rows[1..] && 0 <= j < |st'.books| && o in SideOf(st'.books[j], side)
      ensures o.id != r.id {
      assert r in rows;
    }
  }

  lemma RowFields(c: Config, r: OrderRow)
    requires r.market < |c.markets|
    ensures var o := OrderOf(c.markets[r.market], r); o.id == r.id && o.kind == r.kind && o.side == r.side
  {
  }

  /** Loading the table puts exactly the orders of its rows, in matching order, and touches nothing else. */
  lemma {:induction false} LoadAllOrders(c: Config, st: State, rows: seq<OrderRow>)
    requires |c.markets| == |st.books| && (forall r | r in rows :: Puttable(c, r))
    requires st.balance == map[] && SidesSorted(st) && RowsFresh(st, rows)
    ensures var st' := LoadOrderRows(c, st, rows);
      && |st'.books| == |st.books| && SidesSorted(st') && st' == st.(books := st'.books)
      && (forall i, side, o | 0 <= i < |st.books| :: o in SideOf(st'.books[i], side)
            <==> o in SideOf(st.books[i], side) || PutBy(c, rows, i, side, o))
    decreases |rows|
  {
    hide Mul, PutForm, SidesSorted, Puttable, RowsFresh, LoadOrderRow;
    if rows != [] {
      var st1 := LoadOrderRow(c, st, rows[0]);
      LoadOneOrder(c, st, rows);
      forall r | r in rows[1..] ensures Puttable(c, r) { assert r in rows; }
      LoadAllOrders(c, st1, rows[1..]);
      forall i, side, o | 0 <= i < |st.books|
        ensures PutBy(c, rows, i, side, o) <==>
          (i == rows[0].market && side == rows[0].side && o == PutForm(c.markets[i], rows[0]))
            || PutBy(c, rows[1..], i, side, o)
      {
        PutByCons(c, rows, i, side, o);
      }
    }
  }

  lemma PutByCons(c: Config, rows: seq<OrderRow>, i: nat, side: Side, o: Order)
    requires rows != [] && i < |c.markets|
    ensures PutBy(c, rows, i, side, o) <==>
      (i == rows[0].market && side == rows[0].side && o == PutForm(c.markets[i], rows[0]))
        || PutBy(c, rows[1..], i, side, o)
  {
    hide PutForm;
    assert rows == [rows[0]] + rows[1..];
    if i == rows[0].market && side == rows[0].side && o == PutForm(c.markets[i], rows[0]) { assert rows[0] in rows; }
  }

  // ----- The balance table

  /** `dump_balance_dict`: one row for each entry, in the order of the dictionary walk. Entries that a
    truncation left at zero have rows too. */
  ghost predicate BalanceTable(b: Balance, rows: seq<BalanceRow>) {
    && (forall j, k | 0 <= j < k < |rows| :: rows[j].key != rows[k].key)
    && (forall r | r in rows :: r.balance == Column(At(b, r.key), 16))
    && (forall k | k in b :: exists r :: r in rows && r.key == k)
  }

  /** `load_balance`, one row */
  function LoadBalanceRow(assets: Assets, b: Balance, r: BalanceRow): Balance {
    if r.key.asset !in assets then b
    else Set(assets, b, r.key, Parse(r.balance, assets[r.key.asset].precSave)).balance
  }

  function LoadBalanceRows(assets: Assets, b: Balance, rows: seq<BalanceRow>): Balance
    decreases |rows|
  {
    if rows == [] then b else LoadBalanceRows(assets, LoadBalanceRow(assets, b, rows[0]), rows[1..])
  }

  /** A row that holds a whole number of units of a known asset, or nothing. */
  ghost predicate Settable(assets: Assets, r: BalanceRow) {
    r.balance >= 0.0 && if r.key.asset in assets then OnGrid(r.balance, assets[r.key.asset].precSave)
      else r.balance == 0.0
  }

  lemma {:induction false} LoadAllBalances(assets: Assets, b: Balance, rows: seq<BalanceRow>)
    requires Sound(assets, b) && (forall r | r in rows :: Settable(assets, r))
    requires forall j, k | 0 <= j < k < |rows| :: rows[j].key != rows[k].key
    ensures var b' := LoadBalanceRows(assets, b, rows);
      && Sound(assets, b')
      && (forall r | r in rows :: At(b', r.key) == r.balance)
      && (forall k | (forall r | r in rows :: r.key != k) :: At(b', k) == At(b, k))
    decreases |rows|
  {
    hide OnGrid, Truncate;
    if rows != [] {
      var r0, rest := rows[0], rows[1..];
      assert r0 in rows && Settable(assets, r0);
      if r0.key.asset in assets {
        TruncateExact(r0.balance, assets[r0.key.asset].precSave);
        PutSound(assets, b, r0.key, r0.balance);
      }
      forall r | r in rest ensures Settable(assets, r) && r.key != r0.key { assert r in rows; }
      LoadAllBalances(assets, LoadBalanceRow(assets, b, r0), rest);
      assert forall r :: r in rows <==> r == r0 || r in rest;
    }
  }

  /** What a balance table keeps of the balances. */
  function StoredBalance(b: Balance): Balance {
    map k | k in b && Column(b[k], 16) != 0.0 :: Column(b[k], 16)
  }

  predicate BalancesFit(b: Balance) {
    forall k | k in b :: OnGrid(b[k], 16)
  }

  /** Loading the balance table gives each balance to the nearest sixteenth digit, whatever the precisions of
    the assets, and so gives back the balances themselves if and only if all their digits fit the column. */
  lemma BalancesRestored(assets: Assets, b: Balance, rows: seq<BalanceRow>)
    requires Sound(assets, b) && BalanceTable(b, rows)
    ensures LoadBalanceRows(assets, map[], rows) == StoredBalance(b) && Sound(assets, StoredBalance(b))
    ensures LoadBalanceRows(assets, map[], rows) == b <==> BalancesFit(b)
    ensures forall k :: At(b, k) - Unit(16) / 2.0 < At(StoredBalance(b), k) <= At(b, k) + Unit(16) / 2.0
  {
    hide OnGrid, Column, Unit;
    forall r | r in rows ensures Settable(assets, r) {
      ColumnSettable(assets, b, r.key);
    }
    LoadAllBalances(assets, map[], rows);
    var b' := LoadBalanceRows(assets, map[], rows);
    forall k ensures At(b', k) == At(StoredBalance(b), k) {
      if exists r :: r in rows && r.key == k {
        var r :| r in rows && r.key == k;
        StoredAt(b, k);
      }
    }
    StoredSound(assets, b);
    SoundEqual(assets, b', StoredBalance(b));
    StoredIff(assets, b);
  }

  /** The column of a balance holds a whole number of units of the asset. */
  lemma ColumnSettable(assets: Assets, b: Balance, k: Key)
    requires Sound(assets, b)
    ensures Settable(assets, BalanceRow(k, Column(At(b, k), 16)))
  {
    hide OnGrid, Column;
    if k.asset in assets {
      SoundAt(assets, b, k);
      ColumnNearest(At(b, k), 16);
      ColumnExact(At(b, k), 16);
      var p := assets[k.asset].precSave;
      if p <= 16 { OnGridFiner(At(b, k), p, 16); } else { OnGridFiner(Column(At(b, k), 16), 16, p); }
    } else {
      OnGridZero(16);
      ColumnExact(0.0, 16);
    }
  }

  lemma StoredAt(b: Balance, k: Key)
    ensures At(StoredBalance(b), k) == Column(At(b, k), 16)
  {
    hide Column;
    OnGridZero(16);
    ColumnExact(0.0, 16);
  }

  lemma StoredSound(assets: Assets, b: Balance)
    requires Sound(assets, b)
    ensures Sound(assets, StoredBalance(b))
  {
    hide OnGrid, Column;
    forall k | k in StoredBalance(b)
      ensures k.asset in assets && StoredBalance(b)[k] > 0.0 && OnGrid(StoredBalance(b)[k], assets[k.asset].precSave)
    {
      ColumnSettable(assets, b, k);
    }
  }

  lemma StoredIff(assets: Assets, b: Balance)
    requires Sound(assets, b)
    ensures StoredBalance(b) == b <==> BalancesFit(b)
    ensures forall k :: At(b, k) - Unit(16) / 2.0 < At(StoredBalance(b), k) <= At(b, k) + Unit(16) / 2.0
  {
    hide OnGrid, Column;
    forall k | k in b ensures Column(b[k], 16) == b[k] <==> OnGrid(b[k], 16) {
      ColumnExact(b[k], 16);
    }
    forall k ensures At(b, k) - Unit(16) / 2.0 < At(StoredBalance(b), k) <= At(b, k) + Unit(16) / 2.0 {
      StoredAt(b, k);
      ColumnNearest(At(b, k), 16);
    }
    if StoredBalance(b) == b {
      forall k | k in b ensures OnGrid(b[k], 16) { StoredAt(b, k); }
    }
  }

  // ----- A slice

  ghost predicate IsSlice(st: State, s: Slice) {
    && OrderTable(st, s.orders) && BalanceTable(st.balance, s.balances)
    && s.endOrder == st.lastOrder && s.endDeals == st.lastDeal
  }

  function Blank(c: Config, s: Slice): State {
    InitialState(c).(lastOrder := s.endOrder, lastDeal := s.endDeals)
  }

  /** `init_from_db` up to the log: the counters, then the orders, then the balances. */
  function Restore(c: Config, s: Slice): State {
    var st := LoadOrderRows(c, Blank(c, s), s.orders);
    st.(balance := LoadBalanceRows(c.assets, st.balance, s.balances))
  }

  function StoredSide(s: seq<Order>): seq<Order> {
    seq(|s|, i requires 0 <= i < |s| => Stored(s[i]))
  }

  function StoredBooks(books: seq<Book>): seq<Book> {
    seq(|books|, i requires 0 <= i < |books| => Book(StoredSide(books[i].asks), StoredSide(books[i].bids)))
  }

  /** What a slice of a state keeps of it. The table of update keys is not in a slice. */
  function Restarted(st: State): State {
    State(StoredBalance(st.balance), StoredBooks(st.books), st.lastOrder, st.lastDeal, {})
  }

  lemma StoredSideOk(s: seq<Order>, side: Side)
    requires Sorted(s) && OneSide(s, side)
    ensures Sorted(StoredSide(s)) && OneSide(StoredSide(s), side) && SidesAlike(s, StoredSide(s))
    ensures forall x :: x in StoredSide(s) <==> exists o :: o in s && x == Stored(o)
  {
    hide Column;
    var t := StoredSide(s);
    forall i, j | 0 <= i < j < |t| ensures Precedes(t[i], t[j]) {
      assert Precedes(s[i], s[j]);
    }
    forall x | exists o :: o in s && x == Stored(o) ensures x in t {
      var o :| o in s && x == Stored(o);
      var i :| 0 <= i < |s| && s[i] == o;
      assert t[i] == x;
    }
  }

  lemma StoredBooksAlike(c: Config, st: State)
    requires BooksOk(c, st)
    ensures BooksAlike(st.books, StoredBooks(st.books))
  {
    hide Stored, Sorted, Resting;
    forall i | 0 <= i < |st.books|
      ensures SidesAlike(st.books[i].asks, StoredSide(st.books[i].asks))
        && SidesAlike(st.books[i].bids, StoredSide(st.books[i].bids))
    {
      assert BookOk(c.markets[i], st.books[i]);
      PricedSide(c.markets[i], st.books[i].asks, ASK);
      PricedSide(c.markets[i], st.books[i].bids, BID);
      StoredSideOk(st.books[i].asks, ASK);
      StoredSideOk(st.books[i].bids, BID);
    }
  }

  /** The rows of an order table can be put on empty books. */
  lemma TableLoads(c: Config, st: State, s: Slice)
    requires Inv(c, st) && OrderTable(st, s.orders)
    ensures forall r | r in s.orders :: Puttable(c, r)
    ensures RowsFresh(Blank(c, s), s.orders) && SidesSorted(Blank(c, s))
  {
    hide Mul, RowOf, OrderOf, Sound, FrozenIsLocked, Resting;
    forall r | r in s.orders ensures Puttable(c, r) {
      assert Dumped(st, r);
      var i, side, o :| 0 <= i < |st.books| && o in SideOf(st.books[i], side) && r == RowOf(i, o);
      RowsOfBook(c, st, i, side, o);
    }
  }

  lemma RowsOfBook(c: Config, st: State, i: nat, side: Side, o: Order)
    requires Inv(c, st) && i < |st.books| && o in SideOf(st.books[i], side)
    ensures var r := RowOf(i, o);
      var p := PutForm(c.markets[i], r);
      && Puttable(c, r) && r.market == i && r.side == side && p.id == o.id && p.dealFee == Column(o.dealFee, 12)
      && (p == Stored(o) <==> OrderFits(o))
  {
    hide Mul, Column, Parse, Sound, FrozenIsLocked, IdsOk, LimitOk, OrderFits;
    assert BookOk(c.markets[i], st.books[i]);
    assert Resting(c.markets[i], o, side);
    RowRoundTrip(c.markets[i], i, o, side);
  }

  /** A restored side is the side that was dumped, but for the digits that the fee column loses, if its digits
    fit; and it is not like it if they do not. */
  lemma SideRestored(c: Config, st: State, s: Slice, i: nat, side: Side)
    requires Inv(c, st) && OrderTable(st, s.orders) && i < |c.markets|
    ensures i < |LoadOrderRows(c, Blank(c, s), s.orders).books|
    ensures var orig, got := SideOf(st.books[i], side), SideOf(LoadOrderRows(c, Blank(c, s), s.orders).books[i], side);
      && (SideFits(orig) ==> got == StoredSide(orig))
      && (SidesAlike(orig, got) ==> SideFits(orig))
  {
    hide Mul, RowOf, Sound, FrozenIsLocked, IdsOk, PutForm, Stored, Puttable, RowsFresh, LoadOrderRows, Resting,
      Sorted, OneSide,
      OrderFits, PutBy, Column;
    var orig := SideOf(st.books[i], side);
    TableLoads(c, st, s);
    LoadAllOrders(c, Blank(c, s), s.orders);
    var got := SideOf(LoadOrderRows(c, Blank(c, s), s.orders).books[i], side);
    assert BookOk(c.markets[i], st.books[i]);
    PricedSide(c.markets[i], orig, side);
    StoredSideOk(orig, side);
    if SideFits(orig) {
      forall x ensures x in got <==> x in StoredSide(orig) {
        PutIffStored(c, st, s.orders, i, side, x);
      }
      SortedUnique(got, StoredSide(orig), side);
    }
    if SidesAlike(orig, got) {
      forall o | o in orig ensures OrderFits(o) {
        var j :| 0 <= j < |orig| && orig[j] == o;
        assert got[j] in got && Alike(o, got[j]);
        PutAlikeFits(c, st, s.orders, i, side, o, got[j]);
      }
    }
  }

  lemma PutIff(c: Config, st: State, rows: seq<OrderRow>, i: nat, side: Side, x: Order)
    requires Inv(c, st) && OrderTable(st, rows) && i < |c.markets|
    ensures PutBy(c, rows, i, side, x) <==>
      exists o :: o in SideOf(st.books[i], side) && x == PutForm(c.markets[i], RowOf(i, o))
  {
    hide Mul, RowOf, Sound, FrozenIsLocked, IdsOk, PutForm, Stored, Resting, OrderFits, Column;
    if PutBy(c, rows, i, side, x) {
      var r :| r in rows && r.market == i && r.side == side && x == PutForm(c.markets[i], r);
      assert Dumped(st, r);
      var j, t, o :| 0 <= j < |st.books| && o in SideOf(st.books[j], t) && r == RowOf(j, o);
      RowsOfBook(c, st, j, t, o);
    }
    if exists o :: o in SideOf(st.books[i], side) && x == PutForm(c.markets[i], RowOf(i, o)) {
      var o :| o in SideOf(st.books[i], side) && x == PutForm(c.markets[i], RowOf(i, o));
      RowsOfBook(c, st, i, side, o);
      assert Dumped(st, RowOf(i, o));
    }
  }

  lemma PutIffStored(c: Config, st: State, rows: seq<OrderRow>, i: nat, side: Side, x: Order)
    requires Inv(c, st) && OrderTable(st, rows) && i < |c.markets| && SideFits(SideOf(st.books[i], side))
    ensures PutBy(c, rows, i, side, x) <==> exists o :: o in SideOf(st.books[i], side) && x == Stored(o)
  {
    hide Inv, RowOf, PutForm, Stored, PutBy, OrderTable, OrderFits, Column;
    PutIff(c, st, rows, i, side, x);
    assert |st.books| == |c.markets| by { InvShape(c, st); }
    forall o | o in SideOf(st.books[i], side) ensures PutForm(c.markets[i], RowOf(i, o)) == Stored(o) {
      RowsOfBook(c, st, i, side, o);
    }
  }

  /** A row that puts back an order like the one on the side was written from an order that fits. */
  lemma PutAlikeFits(c: Config, st: State, rows: seq<OrderRow>, i: nat, side: Side, o: Order, x: Order)
    requires Inv(c, st) && OrderTable(st, rows) && i < |c.markets| == |st.books| && o in SideOf(st.books[i], side)
    requires PutBy(c, rows, i, side, x) && Alike(o, x)
    ensures OrderFits(o)
  {
    hide Mul, RowOf, Sound, FrozenIsLocked, IdsOk, PutForm, PutBy, OrderTable, Resting, OrderFits, Column;
    PutIff(c, st, rows, i, side, x);
    var p :| p in SideOf(st.books[i], side) && x == PutForm(c.markets[i], RowOf(i, p));
    RowsOfBook(c, st, i, side, p);
    assert BookOk(c.markets[i], st.books[i]);
    IdsIdentify(SideOf(st.books[i], side), o, p);
  }

  /** Restoring a slice gives back the books, in full but for the digits of recorded fees beyond their column,
    and every balance to the nearest sixteenth digit. The engine is then like the one that was dumped if and
    only if all digits fit the columns. */
  lemma SliceRestores(c: Config, st: State, s: Slice)
    requires Inv(c, st) && IsSlice(st, s)
    ensures BooksFit(st.books) ==> Restore(c, s) == Restarted(st)
    ensures StatesAlike(st, Restore(c, s)) <==> BooksFit(st.books) && BalancesFit(st.balance)
    ensures forall k ::
      At(st.balance, k) - Unit(16) / 2.0 < At(Restore(c, s).balance, k) <= At(st.balance, k) + Unit(16) / 2.0
  {
    hide Mul, Sound, FrozenIsLocked, IdsOk, BookOk, LoadOrderRows, LoadBalanceRows, OrderTable, BalanceTable,
      StoredSide, Stored,
      SidesAlike, Resting, SideFits, BalancesFit, StoredBalance, Unit;
    TableLoads(c, st, s);
    LoadAllOrders(c, Blank(c, s), s.orders);
    BalancesRestored(c.assets, st.balance, s.balances);
    StoredIff(c.assets, st.balance);
    var r := Restore(c, s);
    forall i, side | 0 <= i < |st.books|
      ensures SideFits(SideOf(st.books[i], side)) ==> SideOf(r.books[i], side) == StoredSide(SideOf(st.books[i], side))
      ensures SidesAlike(SideOf(st.books[i], side), SideOf(r.books[i], side)) ==> SideFits(SideOf(st.books[i], side))
    {
      SideRestored(c, st, s, i, side);
    }
    if BooksFit(st.books) {
      BooksEqual(r.books, st.books);
      StoredBooksAlike(c, st);
    }
    if StatesAlike(st, r) {
      forall i, side | 0 <= i < |st.books| ensures SideFits(SideOf(st.books[i], side)) {
        assert SidesAlike(st.books[i].asks, r.books[i].asks) && SidesAlike(st.books[i].bids, r.books[i].bids);
      }
    }
  }

  lemma BooksEqual(got: seq<Book>, books: seq<Book>)
    requires |got| == |books|
    requires forall i, side | 0 <= i < |books| :: SideOf(got[i], side) == StoredSide(SideOf(books[i], side))
    ensures got == StoredBooks(books)
  {
    hide StoredSide;
    forall i | 0 <= i < |books| ensures got[i] == StoredBooks(books)[i] {
      assert SideOf(got[i], ASK) == StoredSide(SideOf(books[i], ASK));
      assert SideOf(got[i], BID) == StoredSide(SideOf(books[i], BID));
    }
  }

  // ----- The restored state satisfies the invariant

  ghost predicate FeesRecorded(s: seq<Order>) {
    forall o | o in s :: o.dealFee >= 0.0
  }

  lemma {:induction false} SumFreezeAlike(s: seq<Order>, t: seq<Order>, u: UserId)
    requires SidesAlike(s, t)
    ensures SumFreeze(s, u) == SumFreeze(t, u)
  {
    if s != [] {
      assert Alike(s[0], t[0]);
      TailAlike(s, t);
      SumFreezeAlike(s[1..], t[1..], u);
    }
  }

  lemma SideOkAlike(m: Market, s: seq<Order>, t: seq<Order>, side: Side)
    requires SideOk(m, s, side) && SidesAlike(s, t) && FeesRecorded(t)
    ensures SideOk(m, t, side)
  {
    hide Mul, OnGrid;
    forall i, j | 0 <= i < j < |t| ensures Precedes(t[i], t[j]) {
      assert Precedes(s[i], s[j]) && Alike(s[i], t[i]) && Alike(s[j], t[j]);
    }
    forall o | o in t ensures Resting(m, o, side) {
      var i :| 0 <= i < |t| && t[i] == o;
      assert Alike(s[i], t[i]) && Resting(m, s[i], side);
    }
  }

  lemma UncrossedAlike(a: Book, b: Book)
    requires Uncrossed(a) && SidesAlike(a.asks, b.asks) && SidesAlike(a.bids, b.bids)
    ensures Uncrossed(b)
  {
    forall x, y | x in b.asks && y in b.bids ensures y.price < x.price {
      var i :| 0 <= i < |b.asks| && b.asks[i] == x;
      var j :| 0 <= j < |b.bids| && b.bids[j] == y;
      assert Alike(a.asks[i], x) && Alike(a.bids[j], y);
      assert a.asks[i] in a.asks && a.bids[j] in a.bids;
    }
  }

  lemma IdsAlike(a: seq<Book>, b: seq<Book>, last: nat)
    requires IdsOk(a, last) && BooksAlike(a, b)
    ensures IdsOk(b, last)
  {
    forall i, side, id | Has(b, i, side, id) ensures Has(a, i, side, id) {
      var o :| o in SideOf(b[i], side) && o.id == id;
      var j :| 0 <= j < |SideOf(b[i], side)| && SideOf(b[i], side)[j] == o;
      assert Alike(SideOf(a[i], side)[j], o);
    }
  }

  lemma {:induction false} LockedAlike(ms: seq<Market>, bs: seq<Book>, cs: seq<Book>, u: UserId, a: Asset)
    requires |ms| == |bs| == |cs|
    requires forall i | 0 <= i < |bs| :: SidesAlike(bs[i].asks, cs[i].asks) && SidesAlike(bs[i].bids, cs[i].bids)
    ensures Locked(ms, bs, u, a) == Locked(ms, cs, u, a)
  {
    if ms != [] {
      SumFreezeAlike(bs[0].asks, cs[0].asks, u);
      SumFreezeAlike(bs[0].bids, cs[0].bids, u);
      LockedAlike(ms[1..], bs[1..], cs[1..], u, a);
    }
  }

  /** The invariant needs the same frozen balances, but not the same available ones. */
  lemma InvAlike(c: Config, a: State, b: State)
    requires Inv(c, a) && BooksAlike(a.books, b.books) && b.lastOrder == a.lastOrder && Sound(c.assets, b.balance)
    requires forall u, x :: At(b.balance, Key(u, FREEZE, x)) == At(a.balance, Key(u, FREEZE, x))
    requires forall i | 0 <= i < |b.books| :: FeesRecorded(b.books[i].asks) && FeesRecorded(b.books[i].bids)
    ensures Inv(c, b)
  {
    hide Sound, Locked, SideOk, IdsOk, Uncrossed, SidesAlike, FeesRecorded;
    forall i | 0 <= i < |b.books| ensures BookOk(c.markets[i], b.books[i]) {
      assert BookOk(c.markets[i], a.books[i]);
      SideOkAlike(c.markets[i], a.books[i].asks, b.books[i].asks, ASK);
      SideOkAlike(c.markets[i], a.books[i].bids, b.books[i].bids, BID);
      UncrossedAlike(a.books[i], b.books[i]);
    }
    IdsAlike(a.books, b.books, a.lastOrder);
    forall u, x ensures At(b.balance, Key(u, FREEZE, x)) == Locked(c.markets, b.books, u, x) {
      LockedAlike(c.markets, a.books, b.books, u, x);
    }
  }

  lemma StoredFees(m: Market, s: seq<Order>, side: Side)
    requires SideOk(m, s, side)
    ensures FeesRecorded(StoredSide(s))
  {
    hide Mul, OnGrid, Column;
    forall o | o in StoredSide(s) ensures o.dealFee >= 0.0 {
      var i :| 0 <= i < |s| && StoredSide(s)[i] == o;
      assert s[i] in s && Resting(m, s[i], side);
      ColumnNearest(s[i].dealFee, 12);
    }
  }

  /** The collateral of an order that fits has at most sixteen digits. */
  lemma FreezeFits(m: Market, o: Order, side: Side)
    requires Resting(m, o, side) && OrderFits(o)
    ensures OnGrid(o.freeze, 16)
  {
    hide Mul, OnGrid;
    GridMul(o.price, 8, o.left, 8);
    OnGridFiner(o.left, 8, 16);
  }

  lemma {:induction false} SumFreezeFits(m: Market, s: seq<Order>, side: Side, u: UserId)
    requires (forall o | o in s :: Resting(m, o, side)) && SideFits(s)
    ensures OnGrid(SumFreeze(s, u), 16)
  {
    hide Resting, OrderFits, OnGrid;
    OnGridZero(16);
    if s != [] {
      assert s[0] in s && forall o | o in s[1..] :: o in s;
      FreezeFits(m, s[0], side);
      SumFreezeFits(m, s[1..], side, u);
      OnGridAdd(if s[0].user == u then s[0].freeze else 0.0, SumFreeze(s[1..], u), 16);
    }
  }

  lemma {:induction false} LockedFits(ms: seq<Market>, bs: seq<Book>, u: UserId, a: Asset)
    requires |ms| == |bs| && (forall i | 0 <= i < |bs| :: BookOk(ms[i], bs[i])) && BooksFit(bs)
    ensures OnGrid(Locked(ms, bs, u, a), 16)
    decreases |ms|
  {
    hide Resting, OnGrid, SideFits, Sorted;
    OnGridZero(16);
    if ms != [] {
      assert BookOk(ms[0], bs[0]);
      assert SideFits(SideOf(bs[0], ASK)) && SideFits(SideOf(bs[0], BID));
      SumFreezeFits(ms[0], bs[0].asks, ASK, u);
      SumFreezeFits(ms[0], bs[0].bids, BID, u);
      BooksFitTail(bs);
      LockedFits(ms[1..], bs[1..], u, a);
      OnGridAdd(if a == ms[0].stock then SumFreeze(bs[0].asks, u) else 0.0, if a == ms[0].money
        then SumFreeze(bs[0].bids, u) else 0.0, 16);
      OnGridAdd(LockedIn(ms[0], bs[0], u, a), Locked(ms[1..], bs[1..], u, a), 16);
    }
  }

  lemma BooksFitTail(bs: seq<Book>)
    requires BooksFit(bs) && bs != []
    ensures BooksFit(bs[1..])
  {
    hide SideFits;
    forall i, side | 0 <= i < |bs[1..]| ensures SideFits(SideOf(bs[1..][i], side)) {
      assert SideFits(SideOf(bs[i + 1], side));
    }
  }

  /** Frozen balances are sums of collateral, so they are restored exactly, whatever the balance column loses of
    available ones; and the restored engine satisfies the invariant. */
  lemma RestoredInv(c: Config, st: State, s: Slice)
    requires Inv(c, st) && BooksFit(st.books) && IsSlice(st, s)
    ensures Inv(c, Restore(c, s))
    ensures forall u, a :: At(Restore(c, s).balance, Key(u, FREEZE, a)) == At(st.balance, Key(u, FREEZE, a))
  {
    hide Restore, Inv, IsSlice, Restarted;
    SliceRestores(c, st, s);
    RestartedInv(c, st);
  }

  lemma RestartedInv(c: Config, st: State)
    requires Inv(c, st) && BooksFit(st.books)
    ensures Inv(c, Restarted(st))
    ensures forall u, a :: At(Restarted(st).balance, Key(u, FREEZE, a)) == At(st.balance, Key(u, FREEZE, a))
  {
    hide Sound, IdsOk, SideOk, FeesRecorded, StoredSide, StoredBalance, Column, OnGrid, BooksFit, Locked;
    var r := Restarted(st);
    forall u, a ensures At(r.balance, Key(u, FREEZE, a)) == At(st.balance, Key(u, FREEZE, a)) {
      FrozenStored(c, st, u, a);
    }
    StoredSound(c.assets, st.balance);
    StoredBooksAlike(c, st);
    forall i | 0 <= i < |r.books| ensures FeesRecorded(r.books[i].asks) && FeesRecorded(r.books[i].bids) {
      assert BookOk(c.markets[i], st.books[i]);
      StoredFees(c.markets[i], st.books[i].asks, ASK);
      StoredFees(c.markets[i], st.books[i].bids, BID);
    }
    InvAlike(c, st, r);
  }

  lemma FrozenStored(c: Config, st: State, u: UserId, a: Asset)
    requires Inv(c, st) && BooksFit(st.books)
    ensures At(StoredBalance(st.balance), Key(u, FREEZE, a)) == At(st.balance, Key(u, FREEZE, a))
  {
    hide BookOk, IdsOk, Column, OnGrid, BooksFit, Locked, StoredBalance;
    var k := Key(u, FREEZE, a);
    LockedFits(c.markets, st.books, u, a);
    StoredAt(st.balance, k);
    ColumnExact(At(st.balance, k), 16);
  }

  /** What a slice keeps of a state that fits is like the state. */
  lemma RestartedAlike(c: Config, st: State)
    requires Inv(c, st) && BalancesFit(st.balance)
    ensures StatesAlike(st, Restarted(st))
  {
    hide Sound, IdsOk, FrozenIsLocked, BookOk, StoredSide, StoredBalance, SidesAlike, BalancesFit;
    StoredIff(c.assets, st.balance);
    StoredBooksAlike(c, st);
  }

  // ----- The log

  /** `load_operlog` over the commands of the log: the first one that fails stops the restart. */
  ghost function ReplayLog(c: Config, st: State, log: seq<Command>): Option<State>
    requires Inv(c, st) && (forall cmd | cmd in log :: Aligned(c, cmd))
    decreases |log|
  {
    if log == [] then Some(st)
    else
      var r := SafeStep(c, st, log[0], REPLAY);
      if r.reply != Done then None else ReplayLog(c, r.state, log[1..])
  }

  /** No two updates of the log have the same key, and none has a key in `used`. */
  ghost predicate NoRepeat(log: seq<Command>, used: set<UpdateKey>) {
    && (forall i, j | 0 <= i < j < |log| && log[i].UpdateBalance? && log[j].UpdateBalance? ::
      KeyOf(log[i]) != KeyOf(log[j]))
    && (forall i | 0 <= i < |log| && log[i].UpdateBalance? :: KeyOf(log[i]) !in used)
  }

  lemma NoRepeatCons(cmd: Command, log: seq<Command>, used: set<UpdateKey>)
    ensures NoRepeat([cmd] + log, used)
      <==>
      && !(cmd.UpdateBalance? && KeyOf(cmd) in used)
      && NoRepeat(log, used + (if cmd.UpdateBalance? then {KeyOf(cmd)} else {}))
  {
    var all := [cmd] + log;
    assert all[0] == cmd && forall i | 0 <= i < |log| :: all[i + 1] == log[i];
    if NoRepeat(all, used) {
      forall i | 0 <= i < |log| && log[i].UpdateBalance?
        ensures KeyOf(log[i]) !in used + (if cmd.UpdateBalance? then {KeyOf(cmd)} else {}) {
        assert all[i + 1] == log[i];
      }
      forall i, j | 0 <= i < j < |log| && log[i].UpdateBalance? && log[j].UpdateBalance?
        ensures KeyOf(log[i]) != KeyOf(log[j]) {
        assert all[i + 1] == log[i] && all[j + 1] == log[j];
      }
    }
    if !(cmd.UpdateBalance? && KeyOf(cmd) in used)
      && NoRepeat(log, used + (if cmd.UpdateBalance? then {KeyOf(cmd)} else {})) {
      forall i, j | 0 <= i < j < |all| && all[i].UpdateBalance? && all[j].UpdateBalance?
        ensures KeyOf(all[i]) != KeyOf(all[j]) {
        assert all[j] == log[j - 1];
        if i > 0 { assert all[i] == log[i - 1]; }
      }
      forall i | 0 <= i < |all| && all[i].UpdateBalance? ensures KeyOf(all[i]) !in used {
        if i > 0 { assert all[i] == log[i - 1]; }
      }
    }
  }

  /** The balance changes of a log have the same effect when they are replayed. */
  predicate ReadSame(c: Config, log: seq<Command>) {
    forall cmd | cmd in log :: SameReading(c, cmd)
  }

  lemma {:induction false} LogFromEvents(c: Config, st: State, events: seq<Event>)
    requires Inv(c, st) && AllAligned(c, events)
    ensures forall cmd | cmd in Run(c, st, events).log :: Request(cmd) in events
    decreases |events|
  {
    hide Inv, Aligned;
    if events != [] {
      var r := Happen(c, st, events[0]);
      LogFromEvents(c, r.state, events[1..]);
      forall cmd | cmd in Run(c, st, events).log ensures Request(cmd) in events {
        if cmd in r.log { assert events[0] == Request(cmd); } else { assert Request(cmd) in events[1..]; }
      }
    }
  }

  lemma ForgetAlike(a: State, b: State, keys: set<UpdateKey>)
    requires StatesAlike(a, b)
    ensures StatesAlike(a.(updates := a.updates - keys), b)
  {
  }

  lemma LogAligned(c: Config, st: State, events: seq<Event>)
    requires Inv(c, st) && AllAligned(c, events)
    ensures forall cmd | cmd in Run(c, st, events).log :: Aligned(c, cmd)
  {
    hide Inv, Run, Aligned;
    LogFromEvents(c, st, events);
  }

  /** Replaying the log of a live run on an engine that was alike when the run began succeeds exactly when
    the log repeats no update key, and then the two engines end alike. */
  lemma {:induction false} ReplayFollowsRun(c: Config, a: State, b: State, events: seq<Event>)
    requires Inv(c, a) && Inv(c, b) && StatesAlike(a, b) && AllAligned(c, events) && ReadSame(c, Run(c, a, events).log)
    ensures forall cmd | cmd in Run(c, a, events).log :: Aligned(c, cmd)
    ensures var r := Run(c, a, events);
      var out := ReplayLog(c, b, r.log);
      && (out.Some? <==> NoRepeat(r.log, b.updates))
      && (out.Some? ==> StatesAlike(r.state, out.value))
    decreases |events|
  {
    hide Inv, Step, StatesAlike, Aligned, SameReading, NoRepeat;
    LogAligned(c, a, events);
    if events == [] {
      EmptyLog(b.updates);
    } else {
      var r0 := Happen(c, a, events[0]);
      var rest := Run(c, r0.state, events[1..]);
      assert events[0] in events;
      match events[0]
      case Forget(keys) =>
        ForgetAlike(a, b, keys);
        ReplayFollowsRun(c, r0.state, b, events[1..]);
        assert Run(c, a, events).log == rest.log;
      case Request(cmd) =>
        var live := SafeStep(c, a, cmd, LIVE);
        if live.reply == Done {
          AlikePriced(c, a, b);
          assert cmd in Run(c, a, events).log;
          StepReplays(c, a, b, cmd, REPLAY);
          assert Run(c, a, events).log == [cmd] + rest.log;
          assert ([cmd] + rest.log)[1..] == rest.log;
          NoRepeatCons(cmd, rest.log, b.updates);
          var back := SafeStep(c, b, cmd, REPLAY);
          if back.reply == Done {
            ReplayFollowsRun(c, live.state, back.state, events[1..]);
          }
        } else {
          ReplayFollowsRun(c, r0.state, b, events[1..]);
          assert Run(c, a, events).log == rest.log;
        }
    }
  }

  lemma EmptyLog(used: set<UpdateKey>)
    ensures NoRepeat([], used)
  {
  }

  /** A restart from any slice of any engine that satisfies the invariant, itself restarted or not. Restoring
    the slice and replaying the log of the further run succeeds exactly when that log repeats no update key;
    then it ends with the books, balances and id counters of the live engine, up to digits of recorded fees. */
  lemma RestartMatchesLive(c: Config, st: State, after: seq<Event>, s: Slice)
    requires Inv(c, st) && AllAligned(c, after) && ReadSame(c, Run(c, st, after).log)
    requires IsSlice(st, s) && BooksFit(st.books) && BalancesFit(st.balance)
    ensures Inv(c, Restore(c, s))
    ensures var live := Run(c, st, after);
      && (forall cmd | cmd in live.log :: Aligned(c, cmd))
      && var back := ReplayLog(c, Restore(c, s), live.log);
        && (back.Some? <==> NoRepeat(live.log, {}))
        && (back.Some? ==> StatesAlike(live.state, back.value))
  {
    hide Inv, Run, Restore, StatesAlike, NoRepeat, IsSlice, Aligned, ReadSame, BooksFit, BalancesFit;
    SliceRestores(c, st, s);
    RestoredInv(c, st, s);
    assert Restore(c, s).updates == {} by { RestartedKeys(st); }
    ReplayFollowsRun(c, st, Restore(c, s), after);
  }

  lemma RestartedKeys(st: State)
    ensures Restarted(st).updates == {}
  {
  }
}
