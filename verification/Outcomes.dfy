/** What a command does, said from the numbers of the command and the state before it alone. */
module Outcomes {
  import opened Decimal
  import opened Balances
  import opened Orders
  import opened Matching
  import opened MatchingProofs
  import opened Execution
  import opened Priority
  import opened EngineSpec
  import opened EngineInvariant
  import opened EngineRuns
  import opened Records

  /** What an engine needs to be given a command. */
  ghost predicate Ready(c: Config, st: State, cmd: Command) {
    Inv(c, st) && |c.markets| == |st.books| && BooksPriced(st) && Aligned(c, cmd)
  }

  predicate IsOrder(c: Config, cmd: Command) {
    (cmd.LimitOrder? || cmd.MarketOrder?) && cmd.market < |c.markets|
  }

  // ----- Deals

  /** A party of a deal: its order, its user, and the rate of its fee. */
  datatype Party = Party(order: OrderId, user: UserId, rate: Dec)

  /** A deal in this market between these two: the seller pays its fee from the money, the buyer from the stock. */
  ghost predicate DealBetween(m: Market, d: Deal, ask: Party, bid: Party) {
    && d.stock == m.stock && d.money == m.money
    && d.ask == ask.order && d.askUser == ask.user && d.askFee == (d.price * d.amount) * ask.rate
    && d.bid == bid.order && d.bidUser == bid.user && d.bidFee == d.amount * bid.rate
  }

  ghost predicate TakenFrom(m: Market, d: Deal, side: Side, taker: Party, maker: Party) {
    d.takerSide == side && if side == ASK then DealBetween(m, d, taker, maker) else DealBetween(m, d, maker, taker)
  }

  /** The price limit of the command allows a deal at this price. */
  predicate Agrees(c: Config, cmd: Command, price: Dec)
    requires IsOrder(c, cmd)
  {
    cmd.LimitOrder? ==>
      var limit := Parse(cmd.price, c.markets[cmd.market].moneyPrec);
      if cmd.side == ASK then limit <= price else price <= limit
  }

  function TakerParty(c: Config, st: State, cmd: Command): Party
    requires IsOrder(c, cmd)
  {
    Party(st.lastOrder + 1, cmd.user, Parse(cmd.takerFee, c.markets[cmd.market].feePrec))
  }

  function MakerParty(o: Order): Party {
    Party(o.id, o.user, o.makerFee)
  }

  lemma DealMeaning(m: Market, taker: Order, maker: Order, id: nat, d: Deal)
    requires d == DealOf(id, m, taker, maker, d.amount) && taker.side == Opposite(maker.side)
    ensures d.id == id && d.price == maker.price
    ensures TakenFrom(m, d, taker.side, Party(taker.id, taker.user, taker.takerFee), MakerParty(maker))
  {
  }

  /** The order that the command puts. */
  function TakerOf(c: Config, st: State, cmd: Command): Order
    requires IsOrder(c, cmd)
  {
    var m := c.markets[cmd.market];
    var amount, takerFee := Parse(cmd.amount, m.stockPrec), Parse(cmd.takerFee, m.feePrec);
    if cmd.LimitOrder? then
      NewOrder(st.lastOrder + 1, LIMIT, cmd.side, cmd.user, Parse(cmd.price, m.moneyPrec), amount, takerFee,
        Parse(cmd.makerFee, m.feePrec))
    else NewOrder(st.lastOrder + 1, MARKET, cmd.side, cmd.user, 0.0, amount, takerFee, 0.0)
  }

  ghost function MatchOf(c: Config, st: State, cmd: Command): Match
    requires IsOrder(c, cmd) && |c.markets| == |st.books|
  {
    StartMatch(st, cmd.market, TakerOf(c, st, cmd))
  }

  /** An accepted order is matched, and what is left of a limit order is put on its side. */
  lemma Accepted(c: Config, st: State, cmd: Command, source: Source)
    requires Ready(c, st, cmd) && IsOrder(c, cmd) && Step(c, st, cmd, source).reply == Done
    ensures var i, m, taker, x := cmd.market, c.markets[cmd.market], TakerOf(c, st, cmd), MatchOf(c, st, cmd);
      && TakerOk(m, taker) && Available(st, taker.user, GiveAsset(m, taker.side)) >= Budget(taker)
      && MatchOk(c.assets, m, x) && Priced(x.makers)
      && var y, r := Execute(c.assets, m, x), Step(c, st, cmd, source);
        && r.deals == y.deals && y.taker.id == st.lastOrder + 1
        && r.state == if cmd.LimitOrder? && y.taker.left != 0.0 then OrderPut(c, AfterMatch(st, i, y), i, y.taker)
            else AfterMatch(st, i, y)
  {
    hide Inv, Execute, OnGrid, Truncate, MatchOk, TakerOk, LimitOk, Budget, OrderPut, AfterMatch, Give;
    var m, taker := c.markets[cmd.market], TakerOf(c, st, cmd);
    ParseOnGrid(cmd.amount, m.stockPrec);
    ParseOnGrid(cmd.takerFee, m.feePrec);
    if cmd.LimitOrder? {
      ParseOnGrid(cmd.price, m.moneyPrec);
      ParseOnGrid(cmd.makerFee, m.feePrec);
      NewOrderOk(m, taker.id, taker.side, taker.user, taker.price, taker.amount, taker.takerFee, taker.makerFee);
    } else {
      NewMarketOrderOk(m, taker.id, taker.side, taker.user, taker.amount, taker.takerFee);
    }
    MatchStarts(c, st, cmd.market, taker);
    ExecuteKeeps(c.assets, m, MatchOf(c, st, cmd));
  }

  /** One deal of a match. */
  ghost predicate DealAt(m: Market, x: Match, d: seq<Deal>, k: nat)
    requires k < |d| <= |x.makers|
  {
    && d[k].id == x.lastDeal + 1 + k && d[k].price == x.makers[k].price && !TooExpensive(x.taker, x.makers[k])
    && 0.0 < d[k].amount <= x.makers[k].left && OnGrid(d[k].amount, m.stockPrec)
    && (k < |d| - 1 ==> d[k].amount == x.makers[k].left)
    && TakenFrom(m, d[k], x.taker.side, Party(x.taker.id, x.taker.user, x.taker.takerFee), MakerParty(x.makers[k]))
  }

  lemma MatchDeals(assets: Assets, m: Market, x: Match)
    requires MatchOk(assets, m, x) && Priced(x.makers) && x.deals == []
    ensures var y := Execute(assets, m, x);
      && y.lastDeal == x.lastDeal + |y.deals| && |y.deals| <= |x.makers|
      && forall k | 0 <= k < |y.deals| :: DealAt(m, x, y.deals, k)
  {
    hide Execute, OnGrid, MatchOk, TakenFrom, DealOf, TooExpensive, Sorted, LimitOk;
    var y := Execute(assets, m, x);
    ExecuteUsesBestMakers(assets, m, x);
    ExecuteKeeps(assets, m, x);
    MatchSide(assets, m, x);
    assert NewDeals(x, y) == y.deals;
    forall k | 0 <= k < |y.deals| ensures DealAt(m, x, y.deals, k) {
      assert Resting(m, x.makers[k], Opposite(x.taker.side));
      DealMeaning(m, x.taker, x.makers[k], x.lastDeal + 1 + k, y.deals[k]);
    }
  }

  /** The deals of an accepted order. They are with the first orders of the other side, one each, at their prices;
    all but the last are used up; and who trades, at which rates, is what the command and those orders say. */
  lemma OrderDeals(c: Config, st: State, cmd: Command, source: Source)
    requires Ready(c, st, cmd) && IsOrder(c, cmd) && Step(c, st, cmd, source).reply == Done
    ensures var r, m := Step(c, st, cmd, source), c.markets[cmd.market];
      var makers, d := SideOf(st.books[cmd.market], Opposite(cmd.side)), r.deals;
      && r.state.lastOrder == st.lastOrder + 1 && r.state.lastDeal == st.lastDeal + |d| && |d| <= |makers|
      && forall k | 0 <= k < |d| ::
        && d[k].id == st.lastDeal + 1 + k && d[k].price == makers[k].price && Agrees(c, cmd, d[k].price)
        && 0.0 < d[k].amount <= makers[k].left && OnGrid(d[k].amount, m.stockPrec)
        && (k < |d| - 1 ==> d[k].amount == makers[k].left)
        && TakenFrom(m, d[k], cmd.side, TakerParty(c, st, cmd), MakerParty(makers[k]))
  {
    hide Inv, Step, Execute, OnGrid, MatchOk, TakerOk, Budget, TakenFrom, Parse;
    Accepted(c, st, cmd, source);
    var m, x, d := c.markets[cmd.market], MatchOf(c, st, cmd), Step(c, st, cmd, source).deals;
    MatchDeals(c.assets, m, x);
    assert x.taker == TakerOf(c, st, cmd) && x.makers == SideOf(st.books[cmd.market], Opposite(cmd.side));
    forall k | 0 <= k < |d|
      ensures d[k].id == st.lastDeal + 1 + k && d[k].price == x.makers[k].price && Agrees(c, cmd, d[k].price)
        && 0.0 < d[k].amount <= x.makers[k].left && OnGrid(d[k].amount, m.stockPrec)
        && (k < |d| - 1 ==> d[k].amount == x.makers[k].left)
        && TakenFrom(m, d[k], cmd.side, TakerParty(c, st, cmd), MakerParty(x.makers[k]))
    {
      assert DealAt(m, x, d, k);
    }
  }

  /** Price and time priority: an accepted order trades with an open order only after it has used up, by an earlier
    deal each, every open order with a better price and every older one at the same price. */
  lemma OrderPriority(c: Config, st: State, cmd: Command, source: Source, a: Order, b: Order, k: nat)
    requires Ready(c, st, cmd) && IsOrder(c, cmd) && Step(c, st, cmd, source).reply == Done
    requires var makers := if cmd.side == ASK then st.books[cmd.market].bids else st.books[cmd.market].asks;
      a in makers && b in makers
    requires (if cmd.side == ASK then a.price > b.price else a.price < b.price) || (a.price == b.price && a.id < b.id)
    requires var d := Step(c, st, cmd, source).deals; k < |d| && MakerId(d[k], cmd.side) == b.id
    ensures var d := Step(c, st, cmd, source).deals;
      exists j | 0 <= j < k :: MakerId(d[j], cmd.side) == a.id && d[j].price == a.price && d[j].amount == a.left
  {
    hide Inv, Step, Execute, OnGrid, MatchOk, TakerOk, Budget, Parse, NewDeals;
    Accepted(c, st, cmd, source);
    var m, x := c.markets[cmd.market], MatchOf(c, st, cmd);
    ExecuteUsesBestMakers(c.assets, m, x);
    AllNew(x, Execute(c.assets, m, x));
    PriceTimeKept(c.assets, m, x, a, b, k);
  }

  lemma AllNew(x: Match, y: Match)
    requires x.deals == []
    ensures NewDeals(x, y) == y.deals
  {
  }

  // ----- How much is traded

  predicate SpendsMoney(cmd: Command) {
    cmd.MarketOrder? && cmd.side == BID
  }

  function AmountOf(c: Config, cmd: Command): Dec
    requires IsOrder(c, cmd)
  {
    Parse(cmd.amount, c.markets[cmd.market].stockPrec)
  }

  /** Where a match stops: a taker with something left finds no maker that it may trade with, or no money for a unit. */
  lemma MatchVolume(assets: Assets, m: Market, x: Match)
    requires MatchOk(assets, m, x) && Priced(x.makers) && x.deals == []
    ensures var y := Execute(assets, m, x); var d := y.deals;
      && (if SpendsBudget(x.taker) then
          && y.taker.left == x.taker.left - SumMoney(d) >= 0.0
          && (y.makers == [] || y.taker.left < y.makers[0].price * Unit(m.stockPrec))
        else
          && y.taker.left == x.taker.left - SumAmount(d) >= 0.0
          && (y.taker.left > 0.0 ==> forall o | o in y.makers :: TooExpensive(x.taker, o)))
      && y.taker.dealStock == x.taker.dealStock + SumAmount(d) && y.taker.dealMoney == x.taker.dealMoney + SumMoney(d)
      && y.taker.dealFee == x.taker.dealFee + SumFee(d, x.taker.side)
      && SameOrder(x.taker, y.taker) && y.taker.freeze == 0.0
  {
    hide Execute, OnGrid, MatchOk, DealOf, Sorted, LimitOk, SumAmount, SumMoney, SumFee, TradeAmount, BestFirst,
      MatchEffect, MarketTakerOk;
    var y := Execute(assets, m, x);
    ExecuteUsesBestMakers(assets, m, x);
    ExecuteKeeps(assets, m, x);
    assert NewDeals(x, y) == y.deals;
    MatchTaker(assets, m, y);
    TakerLeft(m, y.taker);
    MatchSide(assets, m, y);
    if SpendsBudget(x.taker) {
      MarketBuyResidue(assets, m, x);
    } else if y.taker.left > 0.0 {
      forall o | o in y.makers ensures TooExpensive(x.taker, o) {
        var j :| 0 <= j < |y.makers| && y.makers[j] == o;
        SortedPrices(m, y.makers, Opposite(x.taker.side), 0, j);
      }
    }
  }

  lemma MatchTaker(assets: Assets, m: Market, y: Match)
    requires MatchOk(assets, m, y)
    ensures TakerOk(m, y.taker)
  {
  }

  /** A limit order and a market sell trade their whole amount, or all that is on offer at prices they agree to; a
    market buy never spends more than its amount, and ends with no asks or with less than one unit of stock costs. */
  lemma OrderVolume(c: Config, st: State, cmd: Command, source: Source)
    requires Ready(c, st, cmd) && IsOrder(c, cmd) && Step(c, st, cmd, source).reply == Done
    ensures var r := Step(c, st, cmd, source);
      cmd.market < |r.state.books| && var d, rest := r.deals, SideOf(r.state.books[cmd.market], Opposite(cmd.side));
      if SpendsMoney(cmd) then
        && SumMoney(d) <= AmountOf(c, cmd)
        && (rest == [] || AmountOf(c, cmd) - SumMoney(d) < rest[0].price * Unit(c.markets[cmd.market].stockPrec))
      else
        && SumAmount(d) <= AmountOf(c, cmd)
        && (SumAmount(d) < AmountOf(c, cmd) ==> forall o | o in rest :: !Agrees(c, cmd, o.price))
  {
    hide Inv, Step, Execute, OnGrid, MatchOk, TakerOk, Budget, Parse, SumAmount, SumMoney, Insert, Move;
    Accepted(c, st, cmd, source);
    MatchVolume(c.assets, c.markets[cmd.market], MatchOf(c, st, cmd));
  }

  // ----- Books

  function Collateral(side: Side, price: Dec, left: Dec): Dec {
    if side == ASK then left else price * left
  }

  /** The order after it was the maker of this deal. */
  function Reduced(o: Order, d: Deal): Order {
    o.(
      left := o.left - d.amount,
      freeze := Collateral(o.side, o.price, o.left - d.amount),
      dealStock := o.dealStock + d.amount,
      dealMoney := o.dealMoney + d.price * d.amount,
      dealFee := o.dealFee + (if o.side == ASK then d.askFee else d.bidFee))
  }

  /** What a limit order leaves after these deals. */
  ghost function RestOf(c: Config, st: State, cmd: Command, d: seq<Deal>): Order
    requires IsOrder(c, cmd) && cmd.LimitOrder?
  {
    var m, left := c.markets[cmd.market], AmountOf(c, cmd) - SumAmount(d);
    Order(st.lastOrder + 1, LIMIT, cmd.side, cmd.user, Parse(cmd.price, m.moneyPrec), AmountOf(c, cmd),
      Parse(cmd.takerFee, m.feePrec), Parse(cmd.makerFee, m.feePrec), left,
      Collateral(cmd.side, Parse(cmd.price, m.moneyPrec), left), SumAmount(d), SumMoney(d), SumFee(d, cmd.side))
  }

  ghost predicate Rests(c: Config, cmd: Command, d: seq<Deal>)
    requires IsOrder(c, cmd)
  {
    cmd.LimitOrder? && SumAmount(d) < AmountOf(c, cmd)
  }

  /** The makers without those that the deals used up. */
  function MakersLeft(makers: seq<Order>, d: seq<Deal>): seq<Order>
    requires |d| <= |makers|
  {
    var n := |d|;
    if n > 0 && d[n - 1].amount < makers[n - 1].left then [Reduced(makers[n - 1], d[n - 1])] + makers[n..]
    else makers[n..]
  }

  lemma MakerReduced(m: Market, o: Order, d: Deal, taker: Party)
    requires Resting(m, o, o.side) && d.price == o.price && TakenFrom(m, d, Opposite(o.side), taker, MakerParty(o))
    ensures MakerAfter(o, d.amount) == Reduced(o, d)
  {
    CollateralLess(o.side, o.price, o.left, d.amount);
    FeeTaken(m, o, d, taker);
    assert Mul(o.price, d.amount) == d.price * d.amount;
    hide Mul, OnGrid, FeesOk, TradedOk, FeeOf, Give, Collateral, DealBetween;
  }

  lemma CollateralLess(side: Side, price: Dec, left: Dec, amount: Dec)
    ensures Give(side, price, left) - Give(side, price, amount) == Collateral(side, price, left - amount)
  {
    MulSplit(price, left, amount);
  }

  lemma FeeTaken(m: Market, o: Order, d: Deal, taker: Party)
    requires d.price == o.price && TakenFrom(m, d, Opposite(o.side), taker, MakerParty(o))
    ensures FeeOf(o.side, o.price, d.amount, o.makerFee) == if o.side == ASK then d.askFee else d.bidFee
  {
  }

  lemma MatchMakers(assets: Assets, m: Market, x: Match)
    requires MatchOk(assets, m, x) && Priced(x.makers) && x.deals == []
    ensures var y := Execute(assets, m, x); |y.deals| <= |x.makers| && y.makers == MakersLeft(x.makers, y.deals)
  {
    hide Execute, OnGrid, MatchOk, TakenFrom, DealOf, TooExpensive, Sorted, LimitOk, MakerAfter, Reduced, Mul;
    var y := Execute(assets, m, x);
    ExecuteUsesBestMakers(assets, m, x);
    MatchDeals(assets, m, x);
    MatchSide(assets, m, x);
    var d, n := y.deals, |y.deals|;
    assert NewDeals(x, y) == d;
    if n > 0 {
      var o := x.makers[n - 1];
      assert Resting(m, o, Opposite(x.taker.side)) && DealAt(m, x, d, n - 1);
      MakerReduced(m, o, d[n - 1], Party(x.taker.id, x.taker.user, x.taker.takerFee));
    }
  }

  /** The books after an accepted order. From the other side exactly the used-up orders are gone, and the last maker
    may stay with less; what is left of a limit order joins its side, with its collateral; a market order never
    rests; and nothing else changes. */
  lemma OrderBooks(c: Config, st: State, cmd: Command, source: Source)
    requires Ready(c, st, cmd) && IsOrder(c, cmd) && Step(c, st, cmd, source).reply == Done
    ensures var r, i, side := Step(c, st, cmd, source), cmd.market, cmd.side;
      && |r.state.books| == |st.books| && r.state.updates == st.updates
      && (forall j | 0 <= j < |st.books| && j != i :: r.state.books[j] == st.books[j])
      && var makers, own, own' :=
          SideOf(st.books[i], Opposite(side)), SideOf(st.books[i], side), SideOf(r.state.books[i], side);
        && |r.deals| <= |makers| && SideOf(r.state.books[i], Opposite(side)) == MakersLeft(makers, r.deals)
        && (!Rests(c, cmd, r.deals) ==> own' == own)
        && (Rests(c, cmd, r.deals) ==>
          |own'| == |own| + 1 && forall o :: o in own' <==> o == RestOf(c, st, cmd, r.deals) || o in own)
  {
    hide Inv, Step, Execute, OnGrid, MatchOk, TakerOk, Budget, Parse, SumAmount, SumMoney, SumFee, Insert, Move,
      MakersLeft;
    Accepted(c, st, cmd, source);
    var i, m, x := cmd.market, c.markets[cmd.market], MatchOf(c, st, cmd);
    MatchVolume(c.assets, m, x);
    MatchMakers(c.assets, m, x);
    var y := Execute(c.assets, m, x);
    if Rests(c, cmd, y.deals) {
      var o, rest := y.taker, RestOf(c, st, cmd, y.deals);
      assert o.(freeze := Give(o.side, o.price, o.left)) == rest;
      assert SideOf(AfterMatch(st, i, y).books[i], cmd.side) == SideOf(st.books[i], cmd.side);
      InsertElements(SideOf(st.books[i], cmd.side), rest);
    }
  }

  // ----- Balances

  /** What a deal adds to one balance. The taker pays from its available balance and the maker from its frozen one;
    each is paid into its available balance, less its fee rounded up to a whole unit. */
  function DealChange(assets: Assets, d: Deal, k: Key): Dec {
    var askPays, bidPays := if d.takerSide == ASK then AVAILABLE else FREEZE,
      if d.takerSide == BID then AVAILABLE else FREEZE;
    (if k == Key(d.askUser, AVAILABLE, d.money) then d.price * d.amount - RoundUp(d.askFee, PrecOf(assets, d.money))
      else 0.0)
    - (if k == Key(d.askUser, askPays, d.stock) then d.amount else 0.0)
    + (if k == Key(d.bidUser, AVAILABLE, d.stock) then d.amount - RoundUp(d.bidFee, PrecOf(assets, d.stock)) else 0.0)
    - (if k == Key(d.bidUser, bidPays, d.money) then d.price * d.amount else 0.0)
  }

  ghost function SumChange(assets: Assets, deals: seq<Deal>, k: Key): Dec {
    if deals == [] then 0.0 else DealChange(assets, deals[0], k) + SumChange(assets, deals[1..], k)
  }

  /** The settlements of both parties are the change that the deal says. */
  lemma SettlementsAreDeal(assets: Assets, m: Market, taker: Order, maker: Order, id: nat, amount: Dec, k: Key)
    requires m.stock in assets && m.money in assets && m.stock != m.money && taker.side == Opposite(maker.side)
    ensures var side, price := taker.side, maker.price;
      var pays, gets := GiveAsset(m, side), GiveAsset(m, Opposite(side));
      var paid, gained := Give(side, price, amount), Give(Opposite(side), price, amount);
      SettleChange(assets, k, taker.user, AVAILABLE, pays, paid, gets, gained,
          FeeOf(side, price, amount, taker.takerFee))
        + SettleChange(assets, k, maker.user, FREEZE, gets, gained, pays, paid,
            FeeOf(Opposite(side), price, amount, maker.makerFee))
        == DealChange(assets, DealOf(id, m, taker, maker, amount), k)
  {
    hide FeeOf, RoundUp;
    assert Mul(maker.price, amount) == maker.price * amount;
    hide Mul;
  }

  /** The next trade of a match changes each balance as its deal says. */
  lemma FillBalances(assets: Assets, m: Market, x: Match, k: Key)
    requires MatchOk(assets, m, x) && Priced(x.makers) && !Stops(m, x)
    ensures At(Fill(assets, m, x).balance, k) == At(x.balance, k) + DealChange(assets, NextDeal(m, x), k)
  {
    hide Mul, Div, TradeAmount, Sound, Covered, TakerOk, Sorted, OnGrid, RoundUp, FillBalance, MakersAfter, FeeOf,
      SettleChange, SettleTotal, DealChange, DealOf, Give, At, LimitOk;
    SettleBoth(assets, m, x);
    assert Resting(m, x.makers[0], Opposite(x.taker.side));
    SettlementsAreDeal(assets, m, x.taker, x.makers[0], x.lastDeal + 1, TradeAmount(m, x.taker, x.makers[0]), k);
  }

  lemma {:induction false} MatchBalances(assets: Assets, m: Market, x: Match, k: Key)
    requires MatchOk(assets, m, x) && Priced(x.makers)
    ensures var y := Execute(assets, m, x);
      x.deals <= y.deals && At(y.balance, k) == At(x.balance, k) + SumChange(assets, y.deals[|x.deals|..], k)
    decreases |x.makers|
  {
    hide Mul, Div, Fill, MatchOk, NextDeal, RoundUp, TradeAmount, DealChange, At;
    if Stops(m, x) {
      assert x.deals[|x.deals|..] == [];
    } else {
      var y := Fill(assets, m, x);
      FillKeeps(assets, m, x);
      FillBalances(assets, m, x, k);
      MakersPriced(assets, m, y);
      FillShape(assets, m, x);
      FillNext(assets, m, x);
      var z := if |y.makers| == |x.makers| then y else Execute(assets, m, y);
      if |y.makers| < |x.makers| {
        MatchBalances(assets, m, y, k);
      } else {
        assert y.deals[|y.deals|..] == [];
      }
      var rest := z.deals[|x.deals|..];
      assert rest == [NextDeal(m, x)] + z.deals[|y.deals|..] && rest[1..] == z.deals[|y.deals|..];
    }
  }

  lemma FillNext(assets: Assets, m: Market, x: Match)
    requires x.makers != [] && x.makers[0].price > 0.0
    ensures Fill(assets, m, x).deals == x.deals + [NextDeal(m, x)]
  {
    hide Mul, Div, FillBalance, TradeAmount, DealOf;
  }

  /** What resting with this collateral adds to one balance. */
  function LockChange(c: Config, cmd: Command, locked: Dec, k: Key): Dec
    requires IsOrder(c, cmd)
  {
    var m := c.markets[cmd.market];
    var asset := if cmd.side == ASK then m.stock else m.money;
    (if k == Key(cmd.user, FREEZE, asset) then locked else 0.0)
    - (if k == Key(cmd.user, AVAILABLE, asset) then locked else 0.0)
  }

  /** The balances after an accepted order: those before it, what its deals add, and what its rest locks. */
  lemma OrderBalances(c: Config, st: State, cmd: Command, source: Source, k: Key)
    requires Ready(c, st, cmd) && IsOrder(c, cmd) && Step(c, st, cmd, source).reply == Done
    ensures var r := Step(c, st, cmd, source);
      At(r.state.balance, k) == At(st.balance, k) + SumChange(c.assets, r.deals, k)
        + (if Rests(c, cmd, r.deals) then LockChange(c, cmd, RestOf(c, st, cmd, r.deals).freeze, k) else 0.0)
  {
    hide Step, Execute, OnGrid, MatchOk, TakerOk, Budget, Parse, SumAmount, SumMoney, SumFee, Insert, Move, At, Sound,
      LimitOk, DealChange, Stops, IdsOk, FrozenIsLocked, BookOk, SumChange;
    Accepted(c, st, cmd, source);
    var i, m, x := cmd.market, c.markets[cmd.market], MatchOf(c, st, cmd);
    var y := Execute(c.assets, m, x);
    MatchVolume(c.assets, m, x);
    MatchBalances(c.assets, m, x, k);
    assert y.deals[|x.deals|..] == y.deals;
    if Rests(c, cmd, y.deals) {
      ExecuteKeeps(c.assets, m, x);
      MatchKeepsInv(c, st, i, TakerOf(c, st, cmd));
      RestMoves(c, AfterMatch(st, i, y), i, y, k);
    }
  }

  lemma RestMoves(c: Config, st: State, i: nat, y: Match, k: Key)
    requires Inv(c, st) && i < |st.books| && st.balance == y.balance && y.taker.kind == LIMIT && y.taker.left != 0.0
    requires MatchOk(c.assets, c.markets[i], y) && Priced(y.makers) && Stops(c.markets[i], y)
    ensures var o, asset := y.taker, GiveAsset(c.markets[i], y.taker.side);
      var locked := Give(o.side, o.price, o.left);
      At(OrderPut(c, st, i, o).balance, k) == At(st.balance, k)
        + (if k == Key(o.user, FREEZE, asset) then locked else 0.0)
        - (if k == Key(o.user, AVAILABLE, asset) then locked else 0.0)
  {
    hide Mul, OnGrid, MatchOk, TradedOk, FeesOk, Stops, Total, At, Insert, Sound, IdsOk, FrozenIsLocked, BookOk, Move;
    var m, o := c.markets[i], y.taker;
    assert m in c.markets;
    RestReady(c, m, y);
    MulPos(o.price, o.left);
    GiveOnGrid(c.assets, m, o.side, o.price, o.left);
    MoveChanges(c.assets, st.balance, o.user, GiveAsset(m, o.side), AVAILABLE, Give(o.side, o.price, o.left));
  }

  // ----- Replies

  function Purse(c: Config, st: State, cmd: Command): Dec
    requires IsOrder(c, cmd)
  {
    var m := c.markets[cmd.market];
    At(st.balance, Key(cmd.user, AVAILABLE, if cmd.side == ASK then m.stock else m.money))
  }

  /** When a limit order is accepted and how it is refused; a refused one changes nothing. */
  lemma LimitReplies(c: Config, st: State, cmd: Command, source: Source)
    requires Ready(c, st, cmd) && IsOrder(c, cmd) && cmd.LimitOrder?
    ensures var r, m := Step(c, st, cmd, source), c.markets[cmd.market];
      var price, amount, purse := Parse(cmd.price, m.moneyPrec), AmountOf(c, cmd), Purse(c, st, cmd);
      var takerFee, makerFee := Parse(cmd.takerFee, m.feePrec), Parse(cmd.makerFee, m.feePrec);
      var valid := amount > 0.0 && price > 0.0 && 0.0 <= takerFee < 1.0 && 0.0 <= makerFee < 1.0;
      var funded := purse >= if cmd.side == ASK then amount else price * amount;
      && (r.reply == InvalidArgument <==> !valid)
      && (r.reply == BalanceNotEnough <==> valid && !funded)
      && (r.reply == AmountTooSmall <==> valid && funded && amount < m.minAmount)
      && (r.reply == Done <==> valid && funded && amount >= m.minAmount)
      && (r.reply != Done ==> r.state == st && r.deals == [])
  {
    hide Inv, Execute, Parse, OrderPut, AfterMatch;
  }

  /** When a market order is accepted and how it is refused: a buyer's amount is money, so that its least amount
    depends on the best price. */
  lemma MarketReplies(c: Config, st: State, cmd: Command, source: Source)
    requires Ready(c, st, cmd) && IsOrder(c, cmd) && cmd.MarketOrder?
    ensures var r, m := Step(c, st, cmd, source), c.markets[cmd.market];
      var amount, fee, funded :=
        AmountOf(c, cmd), Parse(cmd.takerFee, m.feePrec), Purse(c, st, cmd) >= AmountOf(c, cmd);
      var valid := amount > 0.0 && 0.0 <= fee < 1.0;
      var others := if cmd.side == ASK then st.books[cmd.market].bids else st.books[cmd.market].asks;
      var small := others != [] && amount < if cmd.side == ASK then m.minAmount else others[0].price * m.minAmount;
      && (r.reply == InvalidArgument <==> !valid)
      && (r.reply == BalanceNotEnough <==> valid && !funded)
      && (r.reply == NoTrader <==> valid && funded && others == [])
      && (r.reply == AmountTooSmall <==> valid && funded && small)
      && (r.reply == Done <==> valid && funded && others != [] && !small)
      && (r.reply != Done ==> r.state == st && r.deals == [])
  {
    hide Inv, Execute, Parse, AfterMatch;
  }

  /** A command about a market or an asset that is not configured: refused live, passed over in replay. */
  lemma UnknownReplies(c: Config, st: State, cmd: Command, source: Source)
    requires Ready(c, st, cmd)
    requires if cmd.UpdateBalance? then cmd.asset !in c.assets else cmd.market >= |c.markets|
    ensures var r := Step(c, st, cmd, source);
      r.state == st && r.deals == [] && r.reply == if source == LIVE then InvalidArgument else Done
  {
    hide Inv, PutLimit, PutMarket, Cancel, Update, Parse;
  }

  // ----- Cancels

  predicate Open(b: Book, o: Order) {
    o in b.asks || o in b.bids
  }

  lemma FoundIfOpen(b: Book, id: OrderId)
    ensures FindOrder(b, id) == [] <==> forall o | Open(b, o) :: o.id != id
    ensures FindOrder(b, id) != [] ==> Open(b, FindOrder(b, id)[0]) && FindOrder(b, id)[0].id == id
  {
    hide Lookup;
    LookupFinds(b.asks, id);
    LookupFinds(b.bids, id);
  }

  /** An id belongs to one open order. */
  lemma OpenOnce(c: Config, st: State, i: nat, a: Order, b: Order)
    requires Inv(c, st) && i < |st.books| && Open(st.books[i], a) && Open(st.books[i], b) && a.id == b.id
    ensures a == b && a in SideOf(st.books[i], a.side)
  {
    hide Sound, FrozenIsLocked, LimitOk, Uncrossed, Sorted;
    var book := st.books[i];
    assert BookOk(c.markets[i], book);
    assert (a in book.asks ==> a.side == ASK && Has(st.books, i, ASK, a.id))
      && (a in book.bids ==> a.side == BID && Has(st.books, i, BID, a.id));
    assert (b in book.asks ==> Has(st.books, i, ASK, b.id)) && (b in book.bids ==> Has(st.books, i, BID, b.id));
    IdsIdentify(SideOf(book, a.side), a, b);
  }

  /** Who may cancel what. A live cancel is accepted exactly if the order is open and belongs to the user; a replayed
    one, which was accepted when it was live, does not ask for the user. */
  lemma CancelReplies(c: Config, st: State, cmd: Command, source: Source)
    requires Ready(c, st, cmd) && cmd.CancelOrder? && cmd.market < |c.markets|
    ensures var r, book := Step(c, st, cmd, source), st.books[cmd.market];
      && (r.reply == OrderNotFound <==> forall o | Open(book, o) :: o.id != cmd.order)
      && (source == LIVE ==>
        && (r.reply == Done <==> exists o :: Open(book, o) && o.id == cmd.order && o.user == cmd.user)
        && (r.reply == UserNotMatch <==> exists o :: Open(book, o) && o.id == cmd.order && o.user != cmd.user))
      && (source == REPLAY ==> (r.reply == Done <==> exists o :: Open(book, o) && o.id == cmd.order))
      && (r.reply != Done ==> r.state == st)
  {
    hide Inv, OrderFinish, FindOrder, Open;
    var book := st.books[cmd.market];
    FoundIfOpen(book, cmd.order);
    var found := FindOrder(book, cmd.order);
    if found != [] {
      forall o | Open(book, o) && o.id == cmd.order ensures o == found[0] {
        OpenOnce(c, st, cmd.market, o, found[0]);
      }
    }
  }

  /** An accepted cancel takes exactly that order from its side, and its collateral goes back to its owner. */
  lemma CancelEffect(c: Config, st: State, cmd: Command, source: Source, o: Order, k: Key)
    requires Ready(c, st, cmd) && cmd.CancelOrder? && cmd.market < |c.markets|
    requires Step(c, st, cmd, source).reply == Done && Open(st.books[cmd.market], o) && o.id == cmd.order
    ensures var r, i, m := Step(c, st, cmd, source), cmd.market, c.markets[cmd.market];
      var asset, locked := if o.side == ASK then m.stock else m.money, Collateral(o.side, o.price, o.left);
      && r.deals == [] && r.state == st.(balance := r.state.balance, books := r.state.books)
      && |r.state.books| == |st.books| && (forall j | 0 <= j < |st.books| && j != i :: r.state.books[j] == st.books[j])
      && (forall p :: p in r.state.books[i].asks <==> p in st.books[i].asks && p != o)
      && (forall p :: p in r.state.books[i].bids <==> p in st.books[i].bids && p != o)
      && At(r.state.balance, k) == At(st.balance, k)
        + (if k == Key(o.user, AVAILABLE, asset) then locked else 0.0)
        - (if k == Key(o.user, FREEZE, asset) then locked else 0.0)
  {
    hide Inv, FindOrder, Open, Remove, Release, At;
    var i := cmd.market;
    FoundIfOpen(st.books[i], cmd.order);
    OpenOnce(c, st, i, o, FindOrder(st.books[i], cmd.order)[0]);
    ReleaseMoves(c, st, i, o, k);
    SideWithout(c, st, i, o);
  }

  lemma SideWithout(c: Config, st: State, i: nat, o: Order)
    requires Inv(c, st) && i < |st.books| && o in SideOf(st.books[i], o.side)
    ensures var b := WithSide(st.books[i], o.side, Remove(SideOf(st.books[i], o.side), o.id));
      && (forall p :: p in b.asks <==> p in st.books[i].asks && p != o)
      && (forall p :: p in b.bids <==> p in st.books[i].bids && p != o)
  {
    hide Sound, FrozenIsLocked, LimitOk, Uncrossed, Sorted, IdsOk, Remove;
    var s, other := SideOf(st.books[i], o.side), SideOf(st.books[i], Opposite(o.side));
    assert BookOk(c.markets[i], st.books[i]);
    RemoveElements(s, o.id);
    forall p | p in s && p.id == o.id ensures p == o { IdsIdentify(s, p, o); }
    assert forall p | p in other :: p.side == Opposite(o.side);
  }

  lemma ReleaseMoves(c: Config, st: State, i: nat, o: Order, k: Key)
    requires Inv(c, st) && i < |st.books| && o in SideOf(st.books[i], o.side)
    ensures var asset, locked := GiveAsset(c.markets[i], o.side), Collateral(o.side, o.price, o.left);
      At(OrderFinish(c, st, i, o).balance, k) == At(st.balance, k)
        + (if k == Key(o.user, AVAILABLE, asset) then locked else 0.0)
        - (if k == Key(o.user, FREEZE, asset) then locked else 0.0)
  {
    hide Sound, FrozenIsLocked, IdsOk, TradedOk, FeesOk, OnGrid, Total, Uncrossed, Move, At, Remove, Sorted;
    var m := c.markets[i];
    assert m in c.markets;
    assert Resting(m, o, o.side);
    MulPos(o.price, o.left);
    GiveOnGrid(c.assets, m, o.side, o.price, o.left);
    OrderCovered(c, st, i, o);
    MoveChanges(c.assets, st.balance, o.user, GiveAsset(m, o.side), FREEZE, o.freeze);
  }

  // ----- Balance updates

  /** When an update is accepted, and its effect: the balance becomes the greatest one in whole units that is not
    above the exact sum. A key is used once. */
  lemma UpdateOutcome(c: Config, st: State, cmd: Command, source: Source)
    requires Ready(c, st, cmd) && cmd.UpdateBalance? && cmd.asset in c.assets
    ensures var r, t := Step(c, st, cmd, source), c.assets[cmd.asset];
      var change := Parse(cmd.change, if source == LIVE then t.precShow else t.precSave);
      var k, key := Key(cmd.user, AVAILABLE, cmd.asset), UpdateKey(cmd.user, cmd.asset, cmd.business, cmd.businessId);
      var before, after := At(st.balance, k), At(r.state.balance, k);
      && (r.reply == RepeatUpdate <==> key in st.updates)
      && (r.reply == BalanceNotEnough <==> key !in st.updates && before + change < 0.0)
      && (r.reply == Done <==> key !in st.updates && before + change >= 0.0)
      && (r.reply != Done ==> r.state == st)
      && (r.reply == Done ==>
        && r.state == st.(balance := r.state.balance, updates := st.updates + {key}) && r.deals == []
        && OnGrid(after, t.precSave) && after <= before + change < after + Unit(t.precSave)
        && forall j | j != k :: At(r.state.balance, j) == At(st.balance, j))
  {
    hide OnGrid, Parse, RoundUp, Total, IdsOk, BookOk, FrozenIsLocked, Truncate, Put, Locked, Add, Sub;
    var t, key := c.assets[cmd.asset], UpdateKey(cmd.user, cmd.asset, cmd.business, cmd.businessId);
    var change, k :=
      Parse(cmd.change, if source == LIVE then t.precShow else t.precSave), Key(cmd.user, AVAILABLE, cmd.asset);
    UpdateChanges(c, st, key, change);
    SoundAt(c.assets, st.balance, k);
    SoundAt(c.assets, Update(c, st, key, change).state.balance, k);
    if change >= 0.0 { TruncateIsFloor(change, t.precSave); } else { RoundUpIsCeiling(-change, t.precSave); }
    if key !in st.updates { UpdateRefused(c, st, key, change); }
  }

  lemma UpdateRefused(c: Config, st: State, key: UpdateKey, change: Dec)
    requires Inv(c, st) && key.asset in c.assets && key !in st.updates
    ensures Update(c, st, key, change).reply == Done
      <==> At(st.balance, Key(key.user, AVAILABLE, key.asset)) + change >= 0.0
  {
    hide Truncate, Put;
    SoundAt(c.assets, st.balance, Key(key.user, AVAILABLE, key.asset));
  }
}
