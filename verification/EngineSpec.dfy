/** The matching engine as a state machine over its commands (`me_market.c`, `me_update.c`, and what the
  command handlers of `me_server.c` and the log handlers of `me_load.c` check first). */
module EngineSpec {
  import opened Decimal
  import opened Balances
  import opened Orders
  import opened Matching

  /** `settings.assets` and `settings.markets`. A market's name is its place in the list. */
  datatype Config = Config(assets: Assets, markets: seq<Market>)

  predicate ConfigOk(c: Config) {
    forall m | m in c.markets :: MarketOk(c.assets, m)
  }

  datatype Book = Book(asks: seq<Order>, bids: seq<Order>)
  datatype UpdateKey = UpdateKey(user: UserId, asset: Asset, business: string, businessId: nat)

  datatype State = State(
    balance: Balance, books: seq<Book>, lastOrder: nat, lastDeal: nat, updates: set<UpdateKey>)

  datatype Command =
    | UpdateBalance(user: UserId, asset: Asset, business: string, businessId: nat, change: Dec)
    | LimitOrder(user: UserId, market: nat, side: Side, amount: Dec, price: Dec, takerFee: Dec, makerFee: Dec)
    | MarketOrder(user: UserId, market: nat, side: Side, amount: Dec, takerFee: Dec)
    | CancelOrder(user: UserId, market: nat, order: OrderId)

  datatype Reply = Done | InvalidArgument | RepeatUpdate | BalanceNotEnough | AmountTooSmall | NoTrader
    | OrderNotFound | UserNotMatch

  datatype Result = Result(state: State, reply: Reply, deals: seq<Deal>)

  /** A command that a client sends, or a row of the operation log. */
  datatype Source = LIVE | REPLAY

  function SideOf(b: Book, side: Side): seq<Order> {
    if side == ASK then b.asks else b.bids
  }

  function WithSide(b: Book, side: Side, s: seq<Order>): Book {
    if side == ASK then b.(asks := s) else b.(bids := s)
  }

  function Available(st: State, user: UserId, asset: Asset): Dec {
    At(st.balance, Key(user, AVAILABLE, asset))
  }

  function InitialState(c: Config): State {
    State(map[], seq(|c.markets|, i => Book([], [])), 0, 0, {})
  }

  // ----- update_user_balance

  function Update(c: Config, st: State, key: UpdateKey, change: Dec): Result {
    var k := Key(key.user, AVAILABLE, key.asset);
    if key in st.updates then Result(st, RepeatUpdate, [])
    else
      var r := if change >= 0.0 then Add(c.assets, st.balance, k, change) else Sub(c.assets, st.balance, k, -change);
      if !r.ok then Result(st, BalanceNotEnough, [])
      else Result(st.(balance := r.balance, updates := st.updates + {key}), Done, [])
  }

  // ----- market_put_limit_order

  function NewOrder(id: OrderId, kind: OrderType, side: Side, user: UserId, price: Dec, amount: Dec, takerFee: Dec,
          makerFee: Dec): Order {
    Order(id, kind, side, user, price, amount, takerFee, makerFee, amount, 0.0, 0.0, 0.0, 0.0)
  }

  /** `order_put`: the order joins its side and locks its collateral. */
  function OrderPut(c: Config, st: State, i: nat, o: Order): State
    requires i < |c.markets| == |st.books|
  {
    var o' := o.(freeze := Give(o.side, o.price, o.left));
    var book := WithSide(st.books[i], o.side, Insert(SideOf(st.books[i], o.side), o'));
    st.(
      books := st.books[i := book],
      balance := Move(c.assets, st.balance, o.user, GiveAsset(c.markets[i], o.side), AVAILABLE, o'.freeze).balance)
  }

  function StartMatch(st: State, i: nat, taker: Order): Match
    requires i < |st.books|
  {
    Match(st.balance, SideOf(st.books[i], Opposite(taker.side)), taker, st.lastDeal, [])
  }

  function AfterMatch(st: State, i: nat, y: Match): State
    requires i < |st.books|
  {
    State(y.balance, st.books[i := WithSide(st.books[i], Opposite(y.taker.side), y.makers)], y.taker.id, y.lastDeal,
      st.updates)
  }

  ghost predicate BooksPriced(st: State) {
    forall b | b in st.books :: Priced(b.asks) && Priced(b.bids)
  }

  ghost function PutLimit(c: Config, st: State, i: nat, user: UserId, side: Side, amount: Dec, price: Dec,
          takerFee: Dec, makerFee: Dec): Result
    requires i < |c.markets| == |st.books| && BooksPriced(st)
  {
    var m := c.markets[i];
    if Available(st, user, GiveAsset(m, side)) < Give(side, price, amount) then Result(st, BalanceNotEnough, [])
    else if amount < m.minAmount then Result(st, AmountTooSmall, [])
    else
      var taker := NewOrder(st.lastOrder + 1, LIMIT, side, user, price, amount, takerFee, makerFee);
      assert st.books[i] in st.books;
      var y := Execute(c.assets, m, StartMatch(st, i, taker));
      var st' := AfterMatch(st, i, y);
      Result(if y.taker.left == 0.0 then st' else OrderPut(c, st', i, y.taker), Done, y.deals)
  }

  // ----- market_put_market_order

  ghost function PutMarket(c: Config, st: State, i: nat, user: UserId, side: Side, amount: Dec, takerFee: Dec): Result
    requires i < |c.markets| == |st.books| && BooksPriced(st)
  {
    var m := c.markets[i];
    var makers := SideOf(st.books[i], Opposite(side));
    if Available(st, user, GiveAsset(m, side)) < amount then Result(st, BalanceNotEnough, [])
    else if makers == [] then Result(st, NoTrader, [])
    else if amount < (if side == ASK then m.minAmount else Mul(makers[0].price, m.minAmount))
      then Result(st, AmountTooSmall, [])
    else
      var taker := NewOrder(st.lastOrder + 1, MARKET, side, user, 0.0, amount, takerFee, 0.0);
      assert st.books[i] in st.books;
      var y := Execute(c.assets, m, StartMatch(st, i, taker));
      Result(AfterMatch(st, i, y), Done, y.deals)
  }

  // ----- market_cancel_order

  /** `order_finish`: the order leaves its side and its collateral returns. */
  function OrderFinish(c: Config, st: State, i: nat, o: Order): State
    requires i < |c.markets| == |st.books|
  {
    st.(
      books := st.books[i := WithSide(st.books[i], o.side, Remove(SideOf(st.books[i], o.side), o.id))],
      balance := Release(c.assets, c.markets[i], st.balance, o).balance)
  }

  /** The order with this id on a side, if it is there. */
  function Lookup(s: seq<Order>, id: OrderId): seq<Order> {
    if s == [] then [] else if s[0].id == id then [s[0]] else Lookup(s[1..], id)
  }

  function FindOrder(b: Book, id: OrderId): seq<Order> {
    var a := Lookup(b.asks, id);
    if a != [] then a else Lookup(b.bids, id)
  }

  function Cancel(c: Config, st: State, i: nat, user: UserId, id: OrderId, source: Source): Result
    requires i < |c.markets| == |st.books|
  {
    var found := FindOrder(st.books[i], id);
    if found == [] then Result(st, OrderNotFound, [])
    else if source == LIVE && found[0].user != user then Result(st, UserNotMatch, [])
    else Result(OrderFinish(c, st, i, found[0]), Done, [])
  }

  // ----- Handlers: parse the arguments, check them, run the operation

  predicate FeeArgument(fee: Dec) {
    0.0 <= fee < 1.0
  }

  /** A log row about an asset or market that is no longer configured is passed over. */
  function Unknown(st: State, source: Source): Result {
    Result(st, if source == LIVE then InvalidArgument else Done, [])
  }

  ghost function Step(c: Config, st: State, cmd: Command, source: Source): Result
    requires |c.markets| == |st.books| && BooksPriced(st)
  {
    match cmd
    case UpdateBalance(user, asset, business, businessId, change) =>
      if asset !in c.assets then Unknown(st, source)
      else
        var prec := if source == LIVE then c.assets[asset].precShow else c.assets[asset].precSave;
        Update(c, st, UpdateKey(user, asset, business, businessId), Parse(change, prec))
    case LimitOrder(user, i, side, amount, price, takerFee, makerFee) =>
      if i >= |c.markets| then Unknown(st, source)
      else
        var m := c.markets[i];
        var amount, price := Parse(amount, m.stockPrec), Parse(price, m.moneyPrec);
        var takerFee, makerFee := Parse(takerFee, m.feePrec), Parse(makerFee, m.feePrec);
        if amount <= 0.0 || price <= 0.0 || !FeeArgument(takerFee)
          || !FeeArgument(makerFee) then Result(st, InvalidArgument, [])
        else PutLimit(c, st, i, user, side, amount, price, takerFee, makerFee)
    case MarketOrder(user, i, side, amount, takerFee) =>
      if i >= |c.markets| then Unknown(st, source)
      else
        var m := c.markets[i];
        var amount, takerFee := Parse(amount, m.stockPrec), Parse(takerFee, m.feePrec);
        if amount <= 0.0 || !FeeArgument(takerFee) then Result(st, InvalidArgument, [])
        else PutMarket(c, st, i, user, side, amount, takerFee)
    case CancelOrder(user, i, id) =>
      if i >= |c.markets| then Unknown(st, source)
      else Cancel(c, st, i, user, id, source)
  }
}
