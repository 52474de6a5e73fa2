/** The engine as the program runs it (`me_market.c`, `me_update.c`, the handlers of `me_server.c` and
  `me_load.c`): global counters, one balance dictionary and the configured markets, all changed in place.
  Every method is proved to do what `EngineSpec` says, and every balance operation whose result the
  program ignores is proved to succeed. */
module EngineStore {
  import opened Decimal
  import opened Balances
  import opened LedgerStore
  import opened Orders
  import opened Matching
  import opened MatchingProofs
  import opened Execution
  import opened Priority
  import opened EngineSpec
  import opened EngineInvariant
  import opened EngineRuns
  import opened MarketStore
  import opened Tables

  /** One trade, seen from the loop: the match goes on from the next state, or stops there. */
  lemma ExecuteStep(assets: Assets, m: Market, x: Match)
    requires MatchOk(assets, m, x) && Priced(x.makers) && !Stops(m, x)
    ensures var y := Fill(assets, m, x);
      && FillBalance(assets, m, x.balance, x.taker, x.makers[0], TradeAmount(m, x.taker, x.makers[0])).ok
      && MatchOk(assets, m, y) && Priced(y.makers)
      && (|y.makers| == |x.makers| || |y.makers| == |x.makers| - 1)
      && (|y.makers| == |x.makers| ==> Stops(m, y))
      && Execute(assets, m, x) == Execute(assets, m, y)
  {
    hide Mul, Div, FillBalance, MatchOk, Truncate;
    FillKeeps(assets, m, x);
    var y := Fill(assets, m, x);
    MatchMakers(assets, m, x);
    MatchMakers(assets, m, y);
    if |y.makers| == |x.makers| { PartialFillStops(assets, m, x); }
  }

  lemma MatchMakers(assets: Assets, m: Market, x: Match)
    requires MatchOk(assets, m, x)
    ensures SideOk(m, x.makers, Opposite(x.taker.side)) && Priced(x.makers)
    ensures forall i | 0 <= i < |x.makers| :: Resting(m, x.makers[i], Opposite(x.taker.side))
  {
    PricedSide(m, x.makers, Opposite(x.taker.side));
  }

  lemma ExecuteStopped(assets: Assets, m: Market, x: Match)
    requires Priced(x.makers) && Stops(m, x)
    ensures Execute(assets, m, x) == x
  {
  }

  lemma DerefLength(ids: seq<OrderId>, orders: map<OrderId, Order>, side: Side)
    requires SideHolds(ids, orders, side)
    ensures |Deref(ids, orders)| == |ids|
  {
  }

  lemma IndexedMaker(ids: seq<OrderId>, orders: map<OrderId, Order>, side: Side, i: nat)
    requires SideHolds(ids, orders, side) && i < |ids|
    ensures ids[i] in orders && orders[ids[i]].id == ids[i] && |Deref(ids, orders)| == |ids|
      && Deref(ids, orders)[i] == orders[ids[i]]
  {
    assert ids[i] in ids;
  }

  /** What the two parties pay in the next trade is positive, and their settlements succeed. */
  lemma TradePaid(assets: Assets, m: Market, x: Match)
    requires MatchOk(assets, m, x) && Priced(x.makers) && !Stops(m, x)
    ensures var maker, amount := x.makers[0], TradeAmount(m, x.taker, x.makers[0]);
      var t := SettleOrder(assets, m, x.balance, x.taker, AVAILABLE, maker.price, amount, x.taker.takerFee);
      var k := SettleOrder(assets, m, t.balance, maker, FREEZE, maker.price, amount, maker.makerFee);
      && x.makers != [] && amount > 0.0 && Mul(maker.price, amount) > 0.0 && t.ok && k.ok
      && maker.side == Opposite(x.taker.side)
      && FillBalance(assets, m, x.balance, x.taker, maker, amount).balance
         == (if maker.left - amount == 0.0 then Release(assets, m, k.balance, MakerAfter(maker, amount)).balance
           else k.balance)
      && (maker.left - amount == 0.0 ==> Release(assets, m, k.balance, MakerAfter(maker, amount)).ok)
  {
    hide Mul, Div, MatchOk, Matching.Settle, Truncate, TradeAmount, Balances.Move;
    FillKeeps(assets, m, x);
    TradeAmountOk(assets, m, x);
    MatchMakers(assets, m, x);
    MulPos(x.makers[0].price, TradeAmount(m, x.taker, x.makers[0]));
  }

  /** The number of units in a grid number. */
  ghost function Units(x: Dec, p: nat): int
    decreases p
  {
    if p == 0 then x.Floor else Units(x * 10.0, p - 1)
  }

  lemma {:induction false} UnitsStep(x: Dec, p: nat)
    requires OnGrid(x, p) && x > 0.0
    ensures Units(x, p) > 0 && x >= Unit(p) && Units(x - Unit(p), p) == Units(x, p) - 1
    decreases p
  {
    if p > 0 {
      UnitsStep(x * 10.0, p - 1);
      assert (x - Unit(p)) * 10.0 == x * 10.0 - Unit(p - 1);
    }
  }

  /** The inner loop of `execute_market_bid_order`: one unit less until the money suffices. It ends at the
    largest whole amount, not above the start, that the money can pay for. */
  method CorrectDown(start: Dec, price: Dec, left: Dec, prec: nat) returns (amount: Dec)
    requires OnGrid(start, prec) && start >= 0.0 && price > 0.0 && left >= 0.0
    ensures OnGrid(amount, prec) && 0.0 <= amount <= start && Mul(amount, price) <= left
    ensures forall y | OnGrid(y, prec) && 0.0 <= y <= start && Mul(y, price) <= left :: y <= amount
    ensures Mul(start, price) <= left ==> amount == start
  {
    hide Mul;
    amount := start;
    while Mul(amount, price) > left
      invariant OnGrid(amount, prec) && 0.0 <= amount <= start
      invariant forall y | OnGrid(y, prec) && 0.0 <= y <= start && Mul(y, price) <= left :: y <= amount
      invariant Mul(start, price) <= left ==> amount == start
      decreases Units(amount, prec)
    {
      MulZero(price);
      MulCommutes(price, amount);
      UnitsStep(amount, prec);
      UnitOnGrid(prec);
      OnGridAdd(amount, Unit(prec), prec);
      OnGridZero(prec);
      if amount - Unit(prec) > 0.0 { UnitsStep(amount - Unit(prec), prec); }
      forall y | OnGrid(y, prec) && 0.0 <= y <= start && Mul(y, price) <= left ensures y <= amount - Unit(prec) {
        GridGap(y, amount, prec);
      }
      amount := amount - Unit(prec);
    }
  }

  /** How much a market buy takes from a maker: the quotient, corrected, and at most what the maker has. */
  method BuyAmount(m: Market, taker: Order, maker: Order) returns (amount: Dec)
    requires SpendsBudget(taker) && taker.left >= 0.0 && maker.price > 0.0
    ensures amount == TradeAmount(m, taker, maker)
  {
    hide Mul, Div, Truncate, OnGrid;
    var quotient := Truncate(Div(taker.left, maker.price), m.stockPrec);
    AffordableIsFloor(taker.left, maker.price, m.stockPrec);
    MulCommutes(maker.price, quotient);
    amount := CorrectDown(quotient, maker.price, taker.left, m.stockPrec);
    if amount > maker.left {
      amount := maker.left;
    }
  }

  /** A market buy that cannot pay for a unit at the best price cannot pay for one further on. */
  lemma NextAlsoStops(assets: Assets, m: Market, x: Match, i: nat)
    requires MatchOk(assets, m, x) && Priced(x.makers) && Stops(m, x) && SpendsBudget(x.taker) && x.taker.left > 0.0
      && i < |x.makers|
    ensures x.makers[i].price > 0.0 && TradeAmount(m, x.taker, x.makers[i]) == 0.0
  {
    hide Mul, Div, MatchOk, Truncate, LimitOk;
    MatchMakers(assets, m, x);
    var best, next := x.makers[0], x.makers[i];
    assert Resting(m, best, ASK) && Resting(m, next, ASK);
    RestingPositive(m, best);
    RestingPositive(m, next);
    ResidueBelowUnit(m, x.taker, best);
    SortedPrices(m, x.makers, ASK, 0, i);
    MulMono(best.price, next.price, Unit(m.stockPrec), Unit(m.stockPrec));
    NoUnitAffordable(x.taker.left, next.price, m.stockPrec);
  }

  lemma TakerPositive(assets: Assets, m: Market, x: Match)
    requires MatchOk(assets, m, x)
    ensures x.taker.left >= 0.0
  {
    TakerLeft(m, x.taker);
  }

  /** The deals of a trade are those before it and one more; the number of makers tells whether the best
    one was used up. */
  lemma StepDeals(assets: Assets, m: Market, x: Match)
    requires x.makers != [] && x.makers[0].price > 0.0
    ensures var y := Fill(assets, m, x);
      && |y.deals| == |x.deals| + 1 && y.deals == x.deals + [y.deals[|x.deals|]]
      && (|y.makers| == |x.makers| <==> MakerAfter(x.makers[0], TradeAmount(m, x.taker, x.makers[0])).left != 0.0)
      && y.taker == TakerAfter(x.taker, x.makers[0].price, TradeAmount(m, x.taker, x.makers[0]))
  {
    hide Mul, Div, FillBalance, Truncate;
  }

  lemma RestingPositive(m: Market, o: Order)
    requires Resting(m, o, ASK)
    ensures o.price > 0.0 && o.left > 0.0
  {
  }

  class Engine {
    const c: Config
    const ledger: Ledger
    const markets: seq<MarketT>
    var orderIdStart: nat
    var dealsIdStart: nat
    var updates: set<UpdateKey>
    var history: seq<Deal>
    var operlogIdStart: nat
    /** The rows of the operation log that are not in the database yet. */
    var operlog: seq<Row<Command>>

    /** `init_balance` and `init_trade`: an engine with no orders and no balances. */
    constructor (c: Config)
      requires ConfigOk(c)
      ensures Valid() && fresh(ledger) && (forall i | 0 <= i < |markets| :: fresh(markets[i]))
      ensures this.c == c && Abs() == InitialState(c) && operlogIdStart == 0 && operlog == []
    {
      this.c := c;
      var l := new Ledger(c.assets);
      var ms: seq<MarketT> := [];
      var i := 0;
      while i < |c.markets|
        invariant 0 <= i == |ms| <= |c.markets|
        invariant forall j | 0 <= j < i ::
          fresh(ms[j]) && ms[j].conf == c.markets[j] && ms[j].Valid() && ms[j].View() == Book([], [])
        invariant forall j, k | 0 <= j < k < i :: ms[j] != ms[k]
        invariant fresh(l) && l.assets == c.assets && l.Contents() == map[]
      {
        var m := new MarketT(c.markets[i]);
        ms := ms + [m];
        i := i + 1;
      }
      ledger, markets := l, ms;
      orderIdStart, dealsIdStart, updates, history := 0, 0, {}, [];
      operlogIdStart, operlog := 0, [];
      new;
      assert Abs().books == InitialState(c).books;
      InitialInv(c);
    }

    /** The objects belong together: one market for each configured one, all different. */
    ghost predicate Wired()
      reads this, ledger, markets
    {
      && |markets| == |c.markets| && ledger.assets == c.assets
      && (forall i | 0 <= i < |markets| :: markets[i].conf == c.markets[i] && markets[i].Valid())
      && (forall i, j | 0 <= i < j < |markets| :: markets[i] != markets[j])
    }

    ghost function Abs(): State
      requires Wired()
      reads this, ledger, markets
    {
      State(
        ledger.Contents(),
        seq(|markets|, i requires 0 <= i < |markets| reads this, markets, ledger requires Wired() => markets[i].View()),
        orderIdStart, dealsIdStart, updates)
    }

    ghost predicate Valid()
      reads this, ledger, markets
    {
      Wired() && Inv(c, Abs())
    }

    /** The match that a loop is in. */
    ghost function Current(m: MarketT, taker: Order, deals: seq<Deal>): Match
      requires m.Valid()
      reads this, ledger, m
    {
      Match(ledger.Contents(), SideOf(m.View(), Opposite(taker.side)), taker, dealsIdStart, deals)
    }

    /** The three balance calls that a loop makes for each party of a trade. */
    method Settle(user: UserId, from: Kind, pays: Asset, paid: Dec, gets: Asset, gained: Dec, fee: Dec)
      requires paid > 0.0
      requires Matching.Settle(ledger.assets, ledger.Contents(), user, from, pays, paid, gets, gained, fee).ok
      modifies ledger
      ensures ledger.Contents() == Matching.Settle(ledger.assets, old(ledger.Contents()), user, from, pays, paid, gets,
        gained, fee).balance
    {
      hide Truncate, Put, At;
      var ok := ledger.Sub(Key(user, from, pays), paid);
      assert ok;
      ok := ledger.Add(Key(user, AVAILABLE, gets), gained);
      assert ok;
      if fee > 0.0 {
        ok := ledger.Sub(Key(user, AVAILABLE, gets), fee);
        assert ok;
      }
    }

    /** `order_finish` */
    method OrderFinish(m: MarketT, o: Order)
      requires m.Valid() && o.id in m.orders && m.orders[o.id] == o
      requires Release(ledger.assets, m.conf, ledger.Contents(), o).ok
      modifies ledger, m
      ensures m.Valid() && m.orders == old(m.orders) - {o.id}
      ensures m.View() == WithSide(old(m.View()), o.side, Remove(SideOf(old(m.View()), o.side), o.id))
      ensures o.side == ASK ==> m.asks == RemoveId(old(m.asks), o.id)
      ensures o.side == BID ==> m.bids == RemoveId(old(m.bids), o.id)
      ensures ledger.Contents() == Release(ledger.assets, m.conf, old(ledger.Contents()), o).balance
    {
      hide Balances.Move, SideHolds, ListsHold, Remove, RemoveId, Deref;
      if o.freeze > 0.0 {
        var ok := ledger.Unfreeze(o.user, if o.side == ASK then m.conf.stock else m.conf.money, o.freeze);
        assert ok;
      }
      m.Leave(o);
    }

    /** The body of the four loops: one trade between the taker and the best maker. */
    method Trade(isReal: bool, m: MarketT, order: Order, best: Order, amount: Dec, ghost deals: seq<Deal>)
      returns (taker: Order, maker: Order)
      requires m.Valid() && MatchOk(ledger.assets, m.conf, Current(m, order, deals))
        && Priced(Current(m, order, deals).makers)
      requires !Stops(m.conf, Current(m, order, deals))
      requires best == Current(m, order, deals).makers[0] && amount == TradeAmount(m.conf, order, best)
      modifies ledger, m, this`dealsIdStart, this`history
      ensures m.Valid() && SideOf(m.View(), order.side) == SideOf(old(m.View()), order.side)
      ensures taker == TakerAfter(order, best.price, amount) && maker == MakerAfter(best, amount)
      ensures var y := Fill(ledger.assets, m.conf, old(Current(m, order, deals)));
        && Current(m, taker, y.deals) == y
        && history == old(history) + (if isReal then [y.deals[|deals|]] else [])
    {
      hide Mul, Div, MatchOk, SideHolds, ListsHold, FillBalance, Truncate, Deref, SettleOrder, TradeAmount, Stops,
        Release;
      ghost var x := Current(m, order, deals);
      TradePaid(ledger.assets, m.conf, x);
      MatchMakers(ledger.assets, m.conf, x);
      BestIndexed(m, best.side, best);
      var price := best.price;
      var deal := Mul(price, amount);
      var askFee := Mul(deal, if order.side == ASK then order.takerFee else best.makerFee);
      var bidFee := Mul(amount, if order.side == ASK then best.makerFee else order.takerFee);
      dealsIdStart := dealsIdStart + 1;
      if isReal {
        var ask, bid := if order.side == ASK then order else best, if order.side == ASK then best else order;
        history := history + [Deal(dealsIdStart, m.conf.stock, m.conf.money, ask.id, ask.user, bid.id, bid.user, price,
          amount, askFee, bidFee, order.side)];
      }
      taker := order.(
        left := order.left - (if order.kind == MARKET && order.side == BID then deal else amount),
        dealStock := order.dealStock + amount,
        dealMoney := order.dealMoney + deal,
        dealFee := order.dealFee + (if order.side == ASK then askFee else bidFee));
      maker := best.(
        left := best.left - amount,
        freeze := best.freeze - (if best.side == ASK then amount else deal),
        dealStock := best.dealStock + amount,
        dealMoney := best.dealMoney + deal,
        dealFee := best.dealFee + (if best.side == ASK then askFee else bidFee));
      SettleBoth(m.conf, order, best, amount, deal, askFee, bidFee);
      m.Write(maker);
      if maker.left == 0.0 {
        OrderFinish(m, maker);
      }
    }

    /** Both parties of a trade settle, the taker first. */
    method SettleBoth(conf: Market, taker: Order, maker: Order, amount: Dec, deal: Dec, askFee: Dec, bidFee: Dec)
      requires amount > 0.0 && deal == Mul(maker.price, amount) > 0.0 && maker.side == Opposite(taker.side)
      requires askFee == Mul(deal, if taker.side == ASK then taker.takerFee else maker.makerFee)
      requires bidFee == Mul(amount, if taker.side == ASK then maker.makerFee else taker.takerFee)
      requires var t := SettleOrder(ledger.assets, conf, ledger.Contents(), taker, AVAILABLE, maker.price, amount,
        taker.takerFee);
        t.ok && SettleOrder(ledger.assets, conf, t.balance, maker, FREEZE, maker.price, amount, maker.makerFee).ok
      modifies ledger
      ensures var t := SettleOrder(ledger.assets, conf, old(ledger.Contents()), taker, AVAILABLE, maker.price, amount,
        taker.takerFee);
        ledger.Contents() == SettleOrder(ledger.assets, conf, t.balance, maker, FREEZE, maker.price, amount,
          maker.makerFee).balance
    {
      hide Mul, Matching.Settle;
      if taker.side == ASK {
        Settle(taker.user, AVAILABLE, conf.stock, amount, conf.money, deal, askFee);
        Settle(maker.user, FREEZE, conf.money, deal, conf.stock, amount, bidFee);
      } else {
        Settle(taker.user, AVAILABLE, conf.money, deal, conf.stock, amount, bidFee);
        Settle(maker.user, FREEZE, conf.stock, amount, conf.money, deal, askFee);
      }
    }

    lemma BestIndexed(m: MarketT, side: Side, best: Order)
      requires m.Valid() && SideOf(m.View(), side) != [] && best == SideOf(m.View(), side)[0] && best.side == side
      ensures var ids := if side == ASK then m.asks else m.bids;
        |ids| > 0 && ids[0] == best.id && best.id in m.orders && m.orders[best.id] == best
    {
      hide Sorted;
      var ids := if side == ASK then m.asks else m.bids;
      DerefLength(ids, m.orders, side);
      IndexedMaker(ids, m.orders, side, 0);
    }

    /** `execute_limit_ask_order`: a limit sell takes the bids. */
    method ExecuteLimitAsk(isReal: bool, m: MarketT, order: Order) returns (taker: Order)
      requires m.Valid() && order.kind == LIMIT && order.side == ASK
      requires MatchOk(ledger.assets, m.conf, Current(m, order, [])) && Priced(Current(m, order, []).makers)
      modifies ledger, m, this`dealsIdStart, this`history
      ensures m.Valid()
      ensures var y := Execute(ledger.assets, m.conf, old(Current(m, order, [])));
        && ledger.Contents() == y.balance && taker == y.taker && dealsIdStart == y.lastDeal
        && m.View() == WithSide(old(m.View()), BID, y.makers)
        && history == old(history) + (if isReal then y.deals else [])
    {
      hide Mul, Div, MatchOk, Execute, SideHolds, ListsHold, Fill, Truncate, Deref, Unit, Sorted;
      taker := order;
      ghost var y := Execute(ledger.assets, m.conf, Current(m, order, []));
      ghost var deals: seq<Deal> := [];
      var i := 0;
      while i < |m.bids|
        invariant 0 <= i <= 1 && i <= |m.bids| && m.Valid() && m.View().asks == old(m.View()).asks
        invariant taker.kind == LIMIT && taker.side == ASK
        invariant MatchOk(ledger.assets, m.conf, Current(m, taker, deals)) && Priced(Current(m, taker, deals).makers)
        invariant Execute(ledger.assets, m.conf, Current(m, taker, deals)) == y
        invariant i == 1 ==> Stops(m.conf, Current(m, taker, deals)) && taker.left == 0.0
        invariant history == old(history) + (if isReal then deals else [])
        decreases |m.bids| - i
      {
        if taker.left == 0.0 { break; }
        ghost var x := Current(m, taker, deals);
        IndexedMaker(m.bids, m.orders, BID, i);
        MatchMakers(ledger.assets, m.conf, x);
        var maker := m.orders[m.bids[i]];
        if taker.price > maker.price { break; }
        var amount := if taker.left < maker.left then taker.left else maker.left;
        ExecuteStep(ledger.assets, m.conf, x);
        taker, maker := Trade(isReal, m, taker, maker, amount, deals);
        StepDeals(ledger.assets, m.conf, x);
        deals := Fill(ledger.assets, m.conf, x).deals;
        DerefLength(m.bids, m.orders, BID);
        if maker.left != 0.0 {
          i := i + 1;
        }
      }
      if i < |m.bids| { IndexedMaker(m.bids, m.orders, BID, i); }
      DerefLength(m.bids, m.orders, BID);
      ExecuteStopped(ledger.assets, m.conf, Current(m, taker, deals));
    }

    /** `execute_limit_bid_order`: a limit buy takes the asks. */
    method ExecuteLimitBid(isReal: bool, m: MarketT, order: Order) returns (taker: Order)
      requires m.Valid() && order.kind == LIMIT && order.side == BID
      requires MatchOk(ledger.assets, m.conf, Current(m, order, [])) && Priced(Current(m, order, []).makers)
      modifies ledger, m, this`dealsIdStart, this`history
      ensures m.Valid()
      ensures var y := Execute(ledger.assets, m.conf, old(Current(m, order, [])));
        && ledger.Contents() == y.balance && taker == y.taker && dealsIdStart == y.lastDeal
        && m.View() == WithSide(old(m.View()), ASK, y.makers)
        && history == old(history) + (if isReal then y.deals else [])
    {
      hide Mul, Div, MatchOk, Execute, SideHolds, ListsHold, Fill, Truncate, Deref, Unit, Sorted;
      taker := order;
      ghost var y := Execute(ledger.assets, m.conf, Current(m, order, []));
      ghost var deals: seq<Deal> := [];
      var i := 0;
      while i < |m.asks|
        invariant 0 <= i <= 1 && i <= |m.asks| && m.Valid() && m.View().bids == old(m.View()).bids
        invariant taker.kind == LIMIT && taker.side == BID
        invariant MatchOk(ledger.assets, m.conf, Current(m, taker, deals)) && Priced(Current(m, taker, deals).makers)
        invariant Execute(ledger.assets, m.conf, Current(m, taker, deals)) == y
        invariant i == 1 ==> Stops(m.conf, Current(m, taker, deals)) && taker.left == 0.0
        invariant history == old(history) + (if isReal then deals else [])
        decreases |m.asks| - i
      {
        if taker.left == 0.0 { break; }
        ghost var x := Current(m, taker, deals);
        IndexedMaker(m.asks, m.orders, ASK, i);
        MatchMakers(ledger.assets, m.conf, x);
        var maker := m.orders[m.asks[i]];
        if taker.price < maker.price { break; }
        var amount := if taker.left < maker.left then taker.left else maker.left;
        ExecuteStep(ledger.assets, m.conf, x);
        taker, maker := Trade(isReal, m, taker, maker, amount, deals);
        StepDeals(ledger.assets, m.conf, x);
        deals := Fill(ledger.assets, m.conf, x).deals;
        DerefLength(m.asks, m.orders, ASK);
        if maker.left != 0.0 {
          i := i + 1;
        }
      }
      if i < |m.asks| { IndexedMaker(m.asks, m.orders, ASK, i); }
      DerefLength(m.asks, m.orders, ASK);
      ExecuteStopped(ledger.assets, m.conf, Current(m, taker, deals));
    }

    /** `execute_market_ask_order`: a market sell takes the bids at any price. */
    method ExecuteMarketAsk(isReal: bool, m: MarketT, order: Order) returns (taker: Order)
      requires m.Valid() && order.kind == MARKET && order.side == ASK
      requires MatchOk(ledger.assets, m.conf, Current(m, order, [])) && Priced(Current(m, order, []).makers)
      modifies ledger, m, this`dealsIdStart, this`history
      ensures m.Valid()
      ensures var y := Execute(ledger.assets, m.conf, old(Current(m, order, [])));
        && ledger.Contents() == y.balance && taker == y.taker && dealsIdStart == y.lastDeal
        && m.View() == WithSide(old(m.View()), BID, y.makers)
        && history == old(history) + (if isReal then y.deals else [])
    {
      hide Mul, Div, MatchOk, Execute, SideHolds, ListsHold, Fill, Truncate, Deref, Unit, Sorted;
      taker := order;
      ghost var y := Execute(ledger.assets, m.conf, Current(m, order, []));
      ghost var deals: seq<Deal> := [];
      var i := 0;
      while i < |m.bids|
        invariant 0 <= i <= 1 && i <= |m.bids| && m.Valid() && m.View().asks == old(m.View()).asks
        invariant taker.kind == MARKET && taker.side == ASK
        invariant MatchOk(ledger.assets, m.conf, Current(m, taker, deals)) && Priced(Current(m, taker, deals).makers)
        invariant Execute(ledger.assets, m.conf, Current(m, taker, deals)) == y
        invariant i == 1 ==> Stops(m.conf, Current(m, taker, deals)) && taker.left == 0.0
        invariant history == old(history) + (if isReal then deals else [])
        decreases |m.bids| - i
      {
        if taker.left == 0.0 { break; }
        ghost var x := Current(m, taker, deals);
        IndexedMaker(m.bids, m.orders, BID, i);
        MatchMakers(ledger.assets, m.conf, x);
        var maker := m.orders[m.bids[i]];
        var amount := if taker.left < maker.left then taker.left else maker.left;
        ExecuteStep(ledger.assets, m.conf, x);
        taker, maker := Trade(isReal, m, taker, maker, amount, deals);
        StepDeals(ledger.assets, m.conf, x);
        deals := Fill(ledger.assets, m.conf, x).deals;
        DerefLength(m.bids, m.orders, BID);
        if maker.left != 0.0 {
          i := i + 1;
        }
      }
      if i < |m.bids| { IndexedMaker(m.bids, m.orders, BID, i); }
      DerefLength(m.bids, m.orders, BID);
      ExecuteStopped(ledger.assets, m.conf, Current(m, taker, deals));
    }

    /** `execute_market_bid_order`: a market buy spends its amount on the asks. */
    method ExecuteMarketBid(isReal: bool, m: MarketT, order: Order) returns (taker: Order)
      requires m.Valid() && order.kind == MARKET && order.side == BID
      requires MatchOk(ledger.assets, m.conf, Current(m, order, [])) && Priced(Current(m, order, []).makers)
      modifies ledger, m, this`dealsIdStart, this`history
      ensures m.Valid()
      ensures var y := Execute(ledger.assets, m.conf, old(Current(m, order, [])));
        && ledger.Contents() == y.balance && taker == y.taker && dealsIdStart == y.lastDeal
        && m.View() == WithSide(old(m.View()), ASK, y.makers)
        && history == old(history) + (if isReal then y.deals else [])
    {
      hide Mul, Div, MatchOk, Execute, SideHolds, ListsHold, Fill, Truncate, Deref, Unit, Sorted, DealOf, FillBalance,
        MakersAfter, FeeOf, SettleOrder, Release, TradeAmount;
      taker := order;
      ghost var y := Execute(ledger.assets, m.conf, Current(m, order, []));
      ghost var deals: seq<Deal> := [];
      var i := 0;
      while i < |m.asks|
        invariant 0 <= i <= 1 && i <= |m.asks| && m.Valid() && m.View().bids == old(m.View()).bids
        invariant taker.kind == MARKET && taker.side == BID
        invariant MatchOk(ledger.assets, m.conf, Current(m, taker, deals)) && Priced(Current(m, taker, deals).makers)
        invariant Execute(ledger.assets, m.conf, Current(m, taker, deals)) == y
        invariant i == 1 ==> Stops(m.conf, Current(m, taker, deals))
        invariant history == old(history) + (if isReal then deals else [])
        decreases |m.asks| - i
      {
        if taker.left == 0.0 { break; }
        ghost var x := Current(m, taker, deals);
        IndexedMaker(m.asks, m.orders, ASK, i);
        MatchMakers(ledger.assets, m.conf, x);
        var maker := m.orders[m.asks[i]];
        TakerPositive(ledger.assets, m.conf, x);
        var amount := BuyAmount(m.conf, taker, maker);
        if i == 1 { NextAlsoStops(ledger.assets, m.conf, x, i); }
        if amount == 0.0 { break; }
        ExecuteStep(ledger.assets, m.conf, x);
        taker, maker := Trade(isReal, m, taker, maker, amount, deals);
        StepDeals(ledger.assets, m.conf, x);
        deals := Fill(ledger.assets, m.conf, x).deals;
        DerefLength(m.asks, m.orders, ASK);
        if maker.left != 0.0 {
          i := i + 1;
        }
      }
      if i < |m.asks| { IndexedMaker(m.asks, m.orders, ASK, i); }
      DerefLength(m.asks, m.orders, ASK);
      ExecuteStopped(ledger.assets, m.conf, Current(m, taker, deals));
    }

    /** What one market's change makes of the abstract state. */
    twostate lemma BooksChange(i: nat)
      requires old(Wired()) && Wired() && i < |markets|
      requires forall j | 0 <= j < |markets| && j != i :: unchanged(markets[j])
      ensures Abs().books == old(Abs()).books[i := markets[i].View()]
    {
      forall j | 0 <= j < |markets| ensures Abs().books[j] == old(Abs()).books[i := markets[i].View()][j] {
        if j != i { assert markets[j].View() == old(markets[j].View()); }
      }
    }

    /** `order_put` */
    method OrderPut(i: nat, o: Order) returns (ok: bool)
      requires Wired() && i < |markets| && o.left > 0.0 && o.price > 0.0
      modifies ledger, markets[i]
      ensures Wired()
      ensures ok == (o.kind == LIMIT && o.id !in old(markets[i].orders)
                     && Balances.Move(ledger.assets, old(ledger.Contents()), o.user, GiveAsset(c.markets[i], o.side),
                       AVAILABLE, Give(o.side, o.price, o.left)).ok)
      ensures o.kind == LIMIT && o.id !in old(markets[i].orders) ==> Abs() == EngineSpec.OrderPut(c, old(Abs()), i, o)
      ensures o.kind != LIMIT || o.id in old(markets[i].orders) ==> Abs() == old(Abs())
      ensures markets[i].orders.Keys == old(markets[i].orders.Keys) + (if o.kind == LIMIT then {o.id} else {})
    {
      hide Mul, Balances.Move, Insert, SideHolds, ListsHold, Deref;
      var m := markets[i];
      if o.kind != LIMIT {
        return false;
      }
      GivePositive(o);
      RefusedMove(ledger.Contents(), o.user, GiveAsset(c.markets[i], o.side), Give(o.side, o.price, o.left));
      var locked := if o.side == ASK then o.left else Mul(o.price, o.left);
      ok := m.Enter(o.(freeze := locked));
      if ok {
        ok := ledger.Freeze(o.user, if o.side == ASK then m.conf.stock else m.conf.money, locked);
      }
      BooksChange(i);
    }

    lemma RefusedMove(b: Balance, user: UserId, asset: Asset, amount: Dec)
      ensures !Balances.Move(ledger.assets, b, user, asset, AVAILABLE, amount).ok ==>
                Balances.Move(ledger.assets, b, user, asset, AVAILABLE, amount).balance == b
    {
    }

    lemma GivePositive(o: Order)
      requires o.left > 0.0 && o.price > 0.0
      ensures Give(o.side, o.price, o.left) > 0.0
    {
      hide Mul;
      MulPos(o.price, o.left);
    }

    lemma DictionaryInBook(i: nat, id: OrderId)
      requires Wired() && i < |markets| && id in markets[i].orders
      ensures Has(Abs().books, i, ASK, id) || Has(Abs().books, i, BID, id)
    {
      hide Sorted, ListsHold;
      var m := markets[i];
      var side := if id in m.asks then ASK else BID;
      var ids := if side == ASK then m.asks else m.bids;
      var j :| 0 <= j < |ids| && ids[j] == id;
      IndexedMaker(ids, m.orders, side, j);
      assert Deref(ids, m.orders)[j] in SideOf(Abs().books[i], side);
    }

    lemma NotInDictionary(i: nat, id: OrderId, last: nat)
      requires Wired() && i < |markets| && IdsOk(Abs().books, last) && id > last
      ensures id !in markets[i].orders
    {
      hide SideHolds, ListsHold;
      if id in markets[i].orders {
        DictionaryInBook(i, id);
      }
    }

    ghost predicate LimitArguments(m: Market, amount: Dec, price: Dec, takerFee: Dec, makerFee: Dec) {
      && amount > 0.0 && price > 0.0 && OnGrid(amount, m.stockPrec) && OnGrid(price, m.moneyPrec)
      && FeeArgument(takerFee) && FeeArgument(makerFee) && OnGrid(takerFee, m.feePrec) && OnGrid(makerFee, m.feePrec)
    }

    /** Run the loop for a new order and say what it leaves in terms of the abstract state. */
    method RunLoop(isReal: bool, i: nat, order: Order) returns (taker: Order)
      requires Wired() && i < |markets|
      requires MatchOk(c.assets, c.markets[i], StartMatch(Abs(), i, order))
        && Priced(StartMatch(Abs(), i, order).makers)
      modifies ledger, markets[i], this`dealsIdStart, this`history
      ensures Wired()
      ensures var y := Execute(c.assets, c.markets[i], StartMatch(old(Abs()), i, order));
        && taker == y.taker
        && Abs() == old(Abs()).(balance := y.balance,
          books := old(Abs()).books[i := WithSide(old(Abs()).books[i], Opposite(order.side), y.makers)],
          lastDeal := y.lastDeal)
        && history == old(history) + (if isReal then y.deals else [])
    {
      hide Mul, Execute, MatchOk, SideHolds, ListsHold, Deref;
      var m := markets[i];
      assert Current(m, order, []) == StartMatch(Abs(), i, order);
      if order.kind == LIMIT {
        if order.side == ASK {
          taker := ExecuteLimitAsk(isReal, m, order);
        } else {
          taker := ExecuteLimitBid(isReal, m, order);
        }
      } else {
        if order.side == ASK {
          taker := ExecuteMarketAsk(isReal, m, order);
        } else {
          taker := ExecuteMarketBid(isReal, m, order);
        }
      }
      BooksChange(i);
    }

    /** `market_put_limit_order` */
    method PutLimitOrder(isReal: bool, i: nat, user: UserId, side: Side, amount: Dec, price: Dec, takerFee: Dec,
            makerFee: Dec)
      returns (reply: Reply)
      requires Valid() && i < |markets| && LimitArguments(c.markets[i], amount, price, takerFee, makerFee)
      modifies ledger, markets[i], this`orderIdStart, this`dealsIdStart, this`history
      ensures Valid() && BooksPriced(old(Abs())) && |c.markets| == |old(Abs()).books|
      ensures var r := PutLimit(c, old(Abs()), i, user, side, amount, price, takerFee, makerFee);
        reply == r.reply && Abs() == r.state && history == old(history) + (if isReal then r.deals else [])
    {
      hide Mul, Execute, Inv, OnGrid, LimitOk, TakerOk, Budget, EngineSpec.OrderPut, SideHolds, ListsHold, Deref;
      InvShape(c, Abs());
      ghost var st := Abs();
      PutLimitKeeps(c, st, i, user, side, amount, price, takerFee, makerFee);
      var m := markets[i];
      MulPos(price, amount);
      var needed := if side == ASK then amount else Mul(price, amount);
      var found, available := ledger.Get(Key(user, AVAILABLE, if side == ASK then m.conf.stock else m.conf.money));
      if !found || available < needed {
        return BalanceNotEnough;
      }
      if amount < m.conf.minAmount {
        return AmountTooSmall;
      }
      var order := NewOrder(orderIdStart + 1, LIMIT, side, user, price, amount, takerFee, makerFee);
      NewOrderOk(m.conf, order.id, side, user, price, amount, takerFee, makerFee);
      AcceptLimitOrder(isReal, i, order);
      reply := Done;
    }

    /** The part of `market_put_limit_order` after its checks: match, then put what is left. */
    method AcceptLimitOrder(isReal: bool, i: nat, order: Order)
      requires Valid() && i < |markets| && TakerOk(c.markets[i], order) && order.kind == LIMIT
        && order.id == orderIdStart + 1
      requires Available(Abs(), order.user, GiveAsset(c.markets[i], order.side)) >= Budget(order)
      modifies ledger, markets[i], this`orderIdStart, this`dealsIdStart, this`history
      ensures Wired() && Priced(StartMatch(old(Abs()), i, order).makers) && |c.markets| == |old(Abs()).books|
      ensures var y := Execute(c.assets, c.markets[i], StartMatch(old(Abs()), i, order));
        var st := AfterMatch(old(Abs()), i, y);
        && Abs() == (if y.taker.left == 0.0 then st else EngineSpec.OrderPut(c, st, i, y.taker))
        && history == old(history) + (if isReal then y.deals else [])
    {
      hide Mul, Execute, MatchOk, Inv, OnGrid, LimitOk, TakerOk, Budget, IdsOk, EngineSpec.OrderPut, SideHolds,
        ListsHold, Deref, Sound;
      InvShape(c, Abs());
      ghost var st, m := Abs(), c.markets[i];
      MatchKeepsInv(c, st, i, order);
      ghost var x := StartMatch(st, i, order);
      ExecuteKeeps(c.assets, m, x);
      orderIdStart := orderIdStart + 1;
      assert StartMatch(Abs(), i, order) == x;
      var taker := RunLoop(isReal, i, order);
      assert Abs() == AfterMatch(st, i, Execute(c.assets, m, x));
      if taker.left != 0.0 {
        RestReady(c, m, Execute(c.assets, m, x));
        NotInDictionary(i, taker.id, st.lastOrder);
        PriceOf(m, taker);
        var put := OrderPut(i, taker);
      }
    }

    lemma PriceOf(m: Market, o: Order)
      requires LimitOk(m, o)
      ensures o.price > 0.0 && o.kind == LIMIT
    {
    }

    /** `market_put_market_order` */
    method PutMarketOrder(isReal: bool, i: nat, user: UserId, side: Side, amount: Dec, takerFee: Dec)
      returns (reply: Reply)
      requires Valid() && i < |markets| && amount > 0.0 && OnGrid(amount, c.markets[i].stockPrec)
      requires FeeArgument(takerFee) && OnGrid(takerFee, c.markets[i].feePrec)
      modifies ledger, markets[i], this`orderIdStart, this`dealsIdStart, this`history
      ensures Valid() && BooksPriced(old(Abs())) && |c.markets| == |old(Abs()).books|
      ensures var r := PutMarket(c, old(Abs()), i, user, side, amount, takerFee);
        reply == r.reply && Abs() == r.state && history == old(history) + (if isReal then r.deals else [])
    {
      hide Mul, Execute, MatchOk, Inv, OnGrid, TakerOk, Budget, IdsOk, SideHolds, ListsHold, Deref;
      InvShape(c, Abs());
      ghost var st := Abs();
      PutMarketKeeps(c, st, i, user, side, amount, takerFee);
      var m := markets[i];
      var found, available := ledger.Get(Key(user, AVAILABLE, if side == ASK then m.conf.stock else m.conf.money));
      if !found || available < amount {
        return BalanceNotEnough;
      }
      var makers := if side == ASK then m.bids else m.asks;
      DerefLength(makers, m.orders, Opposite(side));
      if |makers| == 0 {
        return NoTrader;
      }
      IndexedMaker(makers, m.orders, Opposite(side), 0);
      if amount < (if side == ASK then m.conf.minAmount else Mul(m.orders[makers[0]].price, m.conf.minAmount)) {
        return AmountTooSmall;
      }
      var order := NewOrder(orderIdStart + 1, MARKET, side, user, 0.0, amount, takerFee, 0.0);
      NewMarketOrderOk(m.conf, order.id, side, user, amount, takerFee);
      MatchKeepsInv(c, st, i, order);
      ghost var x := StartMatch(st, i, order);
      ExecuteKeeps(c.assets, m.conf, x);
      orderIdStart := orderIdStart + 1;
      assert StartMatch(Abs(), i, order) == x;
      var taker := RunLoop(isReal, i, order);
      assert Abs() == AfterMatch(st, i, Execute(c.assets, m.conf, x));
      reply := Done;
    }

    /** `market_get_order`, the check of the owner that only a live request makes, and `market_cancel_order`. */
    method CancelOrder(i: nat, user: UserId, id: OrderId, source: Source) returns (reply: Reply)
      requires Valid() && i < |markets|
      modifies ledger, markets[i]
      ensures Valid() && |c.markets| == |old(Abs()).books|
      ensures var r := Cancel(c, old(Abs()), i, user, id, source); reply == r.reply && Abs() == r.state && r.deals == []
    {
      hide Inv, SideHolds, ListsHold, Deref, Lookup, Release, Remove;
      InvShape(c, Abs());
      ghost var st := Abs();
      CancelKeeps(c, st, i, user, id, source);
      var m := markets[i];
      m.FindMatchesDictionary(id);
      if id !in m.orders {
        return OrderNotFound;
      }
      var o := m.orders[id];
      if source == LIVE && o.user != user {
        return UserNotMatch;
      }
      FoundOnItsSide(c, st, i, id);
      CancelKeepsInv(c, st, i, o);
      OrderFinish(m, o);
      BooksChange(i);
      reply := Done;
    }

    lemma FoundOnItsSide(c: Config, st: State, i: nat, id: OrderId)
      requires Inv(c, st) && i < |st.books| && FindOrder(st.books[i], id) != []
      ensures var o := FindOrder(st.books[i], id)[0]; o in SideOf(st.books[i], o.side)
    {
      hide Lookup, LimitOk;
      LookupFinds(st.books[i].asks, id);
      LookupFinds(st.books[i].bids, id);
      assert BookOk(c.markets[i], st.books[i]);
    }

    /** `update_user_balance` */
    method UpdateUserBalance(key: UpdateKey, change: Dec) returns (reply: Reply)
      requires Valid() && key.asset in c.assets
      modifies ledger, this`updates
      ensures Valid()
      ensures var r := Update(c, old(Abs()), key, change); reply == r.reply && Abs() == r.state && r.deals == []
    {
      hide Inv, Truncate, Put, At;
      UpdateChanges(c, Abs(), key, change);
      if key in updates {
        return RepeatUpdate;
      }
      var k := Key(key.user, AVAILABLE, key.asset);
      var ok;
      if change >= 0.0 {
        ok := ledger.Add(k, change);
      } else {
        ok := ledger.Sub(k, -change);
      }
      if !ok {
        assert Abs() == old(Abs());
        return BalanceNotEnough;
      }
      updates := updates + {key};
      assert Abs() == Update(c, old(Abs()), key, change).state;
      reply := Done;
    }

    /** `append_operlog` */
    method AppendOperlog(cmd: Command)
      modifies this`operlogIdStart, this`operlog
      ensures operlogIdStart == old(operlogIdStart) + 1 && operlog == old(operlog) + [Row(operlogIdStart, cmd)]
    {
      operlogIdStart := operlogIdStart + 1;
      operlog := operlog + [Row(operlogIdStart, cmd)];
    }

    /** The id that the log goes on from, as `init_from_db` sets it. */
    method StartOperlog(id: nat)
      requires Valid()
      modifies this`operlogIdStart
      ensures Valid() && Abs() == old(Abs()) && operlogIdStart == id
    {
      hide Inv;
      ghost var st := Abs();
      operlogIdStart := id;
      assert Abs() == st;
    }

    /** The timer of `me_update.c` forgets the keys that are a day old. */
    method ForgetUpdates(keys: set<UpdateKey>)
      requires Valid()
      modifies this`updates
      ensures Valid() && Abs() == old(Abs()).(updates := old(updates) - keys)
    {
      hide BookOk, IdsOk, Sound, Locked;
      updates := updates - keys;
      assert Abs() == old(Abs()).(updates := old(updates) - keys);
    }

    /** A command handler of `me_server.c` (`LIVE`), which adds a row to the operation log for an accepted command
      and for no other, or a log handler of `me_load.c` (`REPLAY`). */
    method Handle(cmd: Command, source: Source) returns (reply: Reply)
      requires Valid() && Aligned(c, cmd)
      modifies ledger, markets, this`orderIdStart, this`dealsIdStart, this`history, this`updates, this`operlogIdStart,
        this`operlog
      ensures Valid() && BooksPriced(old(Abs())) && |c.markets| == |old(Abs()).books|
      ensures var r := Step(c, old(Abs()), cmd, source);
        reply == r.reply && Abs() == r.state && history == old(history) + (if source == LIVE then r.deals else [])
      ensures var rows := if source == LIVE && reply == Done then [Row(old(operlogIdStart) + 1, cmd)] else [];
        operlog == old(operlog) + rows && operlogIdStart == old(operlogIdStart) + |rows|
    {
      hide Inv, Step, Aligned;
      reply := Perform(cmd, source);
      if source == LIVE && reply == Done {
        ghost var st := Abs();
        AppendOperlog(cmd);
        assert Abs() == st;
      }
    }

    /** What the live and the replaying handlers share: parse the arguments, check them, run the operation. Only
      a live request appends to the histories. */
    method Perform(cmd: Command, source: Source) returns (reply: Reply)
      requires Valid() && Aligned(c, cmd)
      modifies ledger, markets, this`orderIdStart, this`dealsIdStart, this`history, this`updates
      ensures Valid() && BooksPriced(old(Abs())) && |c.markets| == |old(Abs()).books|
      ensures var r := Step(c, old(Abs()), cmd, source);
        reply == r.reply && Abs() == r.state && history == old(history) + (if source == LIVE then r.deals else [])
    {
      hide Inv, Parse, OnGrid, PutLimit, PutMarket, Cancel, Update;
      InvShape(c, Abs());
      match cmd
      case UpdateBalance(user, asset, business, businessId, change) =>
        if asset !in c.assets {
          return if source == LIVE then InvalidArgument else Done;
        }
        var prec := if source == LIVE then c.assets[asset].precShow else c.assets[asset].precSave;
        reply := UpdateUserBalance(UpdateKey(user, asset, business, businessId), Parse(change, prec));
      case LimitOrder(user, i, side, rawAmount, rawPrice, rawTaker, rawMaker) =>
        if i >= |markets| {
          return if source == LIVE then InvalidArgument else Done;
        }
        var m := c.markets[i];
        ParseOnGrid(rawAmount, m.stockPrec);
        ParseOnGrid(rawPrice, m.moneyPrec);
        ParseOnGrid(rawTaker, m.feePrec);
        ParseOnGrid(rawMaker, m.feePrec);
        var amount, price := Parse(rawAmount, m.stockPrec), Parse(rawPrice, m.moneyPrec);
        var takerFee, makerFee := Parse(rawTaker, m.feePrec), Parse(rawMaker, m.feePrec);
        if amount <= 0.0 || price <= 0.0 || !FeeArgument(takerFee) || !FeeArgument(makerFee) {
          return InvalidArgument;
        }
        reply := PutLimitOrder(source == LIVE, i, user, side, amount, price, takerFee, makerFee);
      case MarketOrder(user, i, side, rawAmount, rawTaker) =>
        if i >= |markets| {
          return if source == LIVE then InvalidArgument else Done;
        }
        var m := c.markets[i];
        ParseOnGrid(rawAmount, m.stockPrec);
        ParseOnGrid(rawTaker, m.feePrec);
        var amount, takerFee := Parse(rawAmount, m.stockPrec), Parse(rawTaker, m.feePrec);
        if amount <= 0.0 || !FeeArgument(takerFee) {
          return InvalidArgument;
        }
        reply := PutMarketOrder(source == LIVE, i, user, side, amount, takerFee);
      case CancelOrder(user, i, id) =>
        if i >= |markets| {
          return if source == LIVE then InvalidArgument else Done;
        }
        reply := this.CancelOrder(i, user, id, source);
    }
  }
}
