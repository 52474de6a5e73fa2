/** One meaning for the four matching loops of `matchengine/me_market.c`.

  A `Match` is what a loop changes: the balances, the opposite side of the book, the taker, the
  deal counter, and the deals made so far. */
module Matching {
  import opened Decimal
  import opened Balances
  import opened Orders

  datatype Deal = Deal(
    id: nat, stock: Asset, money: Asset, ask: OrderId, askUser: UserId, bid: OrderId, bidUser: UserId,
    price: Dec, amount: Dec, askFee: Dec, bidFee: Dec, takerSide: Side)

  datatype Match = Match(balance: Balance, makers: seq<Order>, taker: Order, lastDeal: nat, deals: seq<Deal>)

  ghost predicate Priced(makers: seq<Order>) {
    forall o | o in makers :: o.price > 0.0
  }

  /** A market buy states its budget in money; every other order states its size in stock. */
  predicate SpendsBudget(taker: Order) {
    taker.kind == MARKET && taker.side == BID
  }

  /** The amount traded between the taker and the next maker. */
  function TradeAmount(m: Market, taker: Order, maker: Order): Dec
    requires maker.price > 0.0
  {
    var wanted := if SpendsBudget(taker) then Truncate(Div(taker.left, maker.price), m.stockPrec) else taker.left;
    if wanted < maker.left then wanted else maker.left
  }

  /** The limit price of the taker rules the maker out. */
  predicate TooExpensive(taker: Order, maker: Order) {
    taker.kind == LIMIT && if taker.side == ASK then taker.price > maker.price else taker.price < maker.price
  }

  ghost predicate Stops(m: Market, x: Match)
    requires Priced(x.makers)
  {
    || x.makers == []
    || x.taker.left == 0.0
    || TooExpensive(x.taker, x.makers[0])
    || (SpendsBudget(x.taker) && TradeAmount(m, x.taker, x.makers[0]) == 0.0)
  }

  /** The fee is a part of what the party is paid: money for an ask, stock for a bid. */
  function FeeOf(side: Side, price: Dec, amount: Dec, rate: Dec): Dec {
    Mul(Give(Opposite(side), price, amount), rate)
  }

  function TakerAfter(taker: Order, price: Dec, amount: Dec): Order {
    taker.(
      left := taker.left - (if SpendsBudget(taker) then Mul(price, amount) else amount),
      dealStock := taker.dealStock + amount,
      dealMoney := taker.dealMoney + Mul(price, amount),
      dealFee := taker.dealFee + FeeOf(taker.side, price, amount, taker.takerFee))
  }

  function MakerAfter(maker: Order, amount: Dec): Order {
    maker.(
      left := maker.left - amount,
      freeze := maker.freeze - Give(maker.side, maker.price, amount),
      dealStock := maker.dealStock + amount,
      dealMoney := maker.dealMoney + Mul(maker.price, amount),
      dealFee := maker.dealFee + FeeOf(maker.side, maker.price, amount, maker.makerFee))
  }

  function DealOf(id: nat, m: Market, taker: Order, maker: Order, amount: Dec): Deal {
    var takerFee := FeeOf(taker.side, maker.price, amount, taker.takerFee);
    var makerFee := FeeOf(maker.side, maker.price, amount, maker.makerFee);
    if taker.side == ASK
    then Deal(id, m.stock, m.money, taker.id, taker.user, maker.id, maker.user, maker.price, amount, takerFee,
      makerFee, ASK)
    else Deal(id, m.stock, m.money, maker.id, maker.user, taker.id, taker.user, maker.price, amount, makerFee,
      takerFee, BID)
  }

  /** One party of a trade pays, is paid, and is charged its fee from what it was paid. */
  function Settle(assets: Assets, b: Balance, user: UserId, from: Kind, pays: Asset, paid: Dec,
                  gets: Asset, gained: Dec, fee: Dec): Outcome
  {
    var b1 := Sub(assets, b, Key(user, from, pays), paid);
    var b2 := Add(assets, b1.balance, Key(user, AVAILABLE, gets), gained);
    if fee > 0.0 then
      var b3 := Sub(assets, b2.balance, Key(user, AVAILABLE, gets), fee);
      Outcome(b1.ok && b2.ok && b3.ok, b3.balance)
    else Outcome(b1.ok && b2.ok, b2.balance)
  }

  function SettleOrder(assets: Assets, m: Market, b: Balance, o: Order, from: Kind, price: Dec, amount: Dec,
          rate: Dec): Outcome {
    Settle(assets, b, o.user, from, GiveAsset(m, o.side), Give(o.side, price, amount),
           GiveAsset(m, Opposite(o.side)), Give(Opposite(o.side), price, amount), FeeOf(o.side, price, amount, rate))
  }

  /** `order_finish` as far as the balances go: collateral that is left returns to its owner. */
  function Release(assets: Assets, m: Market, b: Balance, o: Order): Outcome {
    if o.freeze > 0.0 then Move(assets, b, o.user, GiveAsset(m, o.side), FREEZE, o.freeze)
    else Outcome(true, b)
  }

  /** The balances after a trade, and whether every balance operation on the way succeeded. */
  function FillBalance(assets: Assets, m: Market, b: Balance, taker: Order, maker: Order, amount: Dec): Outcome {
    var t := SettleOrder(assets, m, b, taker, AVAILABLE, maker.price, amount, taker.takerFee);
    var k := SettleOrder(assets, m, t.balance, maker, FREEZE, maker.price, amount, maker.makerFee);
    var maker' := MakerAfter(maker, amount);
    if maker'.left == 0.0 then
      var r := Release(assets, m, k.balance, maker');
      Outcome(t.ok && k.ok && r.ok, r.balance)
    else Outcome(t.ok && k.ok, k.balance)
  }

  function MakersAfter(makers: seq<Order>, amount: Dec): seq<Order>
    requires makers != []
  {
    var maker' := MakerAfter(makers[0], amount);
    if maker'.left == 0.0 then makers[1..] else [maker'] + makers[1..]
  }

  /** One trade with the best maker. */
  function Fill(assets: Assets, m: Market, x: Match): Match
    requires x.makers != [] && x.makers[0].price > 0.0
  {
    var maker := x.makers[0];
    var amount := TradeAmount(m, x.taker, maker);
    Match(
      FillBalance(assets, m, x.balance, x.taker, maker, amount).balance,
      MakersAfter(x.makers, amount),
      TakerAfter(x.taker, maker.price, amount),
      x.lastDeal + 1,
      x.deals + [DealOf(x.lastDeal + 1, m, x.taker, maker, amount)])
  }

  /** Trade with the best makers, one after the other, until the taker is done or no maker will do.
    A maker that keeps some of its amount ends the match. */
  ghost function Execute(assets: Assets, m: Market, x: Match): Match
    requires Priced(x.makers)
    decreases |x.makers|
  {
    if Stops(m, x) then x
    else
      var y := Fill(assets, m, x);
      if |y.makers| == |x.makers| then y else Execute(assets, m, y)
  }

  // ----- What holds of the orders and balances throughout

  ghost predicate FeesOk(m: Market, o: Order) {
    0.0 <= o.takerFee < 1.0 && OnGrid(o.takerFee, m.feePrec) && 0.0 <= o.makerFee < 1.0 && OnGrid(o.makerFee, m.feePrec)
  }

  /** What an order has traded: never more than it asked for, and never at a price worse than its own. */
  ghost predicate TradedOk(m: Market, o: Order) {
    && o.dealStock >= 0.0 && o.dealMoney >= 0.0 && o.dealFee >= 0.0 && OnGrid(o.dealStock, m.stockPrec)
    && OnGrid(o.dealMoney, m.stockPrec + m.moneyPrec)
    && (if o.side == ASK then o.dealMoney >= Mul(o.price, o.dealStock) else o.dealMoney <= Mul(o.price, o.dealStock))
  }

  /** A limit order with `left` still to trade; `locked` says whether it rests and holds collateral. */
  ghost predicate LimitOk(m: Market, o: Order) {
    && o.kind == LIMIT && FeesOk(m, o) && TradedOk(m, o)
    && o.price > 0.0 && OnGrid(o.price, m.moneyPrec)
    && o.left >= 0.0 && OnGrid(o.left, m.stockPrec)
    && o.dealStock + o.left == o.amount
  }

  ghost predicate Resting(m: Market, o: Order, side: Side) {
    LimitOk(m, o) && o.side == side && o.left > 0.0 && o.freeze == Give(side, o.price, o.left)
  }

  ghost predicate SideOk(m: Market, s: seq<Order>, side: Side) {
    Sorted(s) && forall o | o in s :: Resting(m, o, side)
  }

  /** What the taker may still have to pay. */
  function Budget(taker: Order): Dec {
    if taker.kind == MARKET then taker.left else Give(taker.side, taker.price, taker.left)
  }

  ghost predicate MarketTakerOk(m: Market, o: Order) {
    && o.kind == MARKET && FeesOk(m, o) && o.left >= 0.0 && o.dealStock >= 0.0 && o.dealFee >= 0.0
    && (if o.side == ASK then OnGrid(o.left, m.stockPrec) && o.dealStock + o.left == o.amount
        else o.dealMoney + o.left == o.amount)
  }

  ghost predicate TakerOk(m: Market, o: Order) {
    o.freeze == 0.0 && (LimitOk(m, o) || MarketTakerOk(m, o))
  }

  ghost predicate MatchOk(assets: Assets, m: Market, x: Match) {
    && MarketOk(assets, m)
    && Sound(assets, x.balance)
    && SideOk(m, x.makers, Opposite(x.taker.side))
    && TakerOk(m, x.taker)
    && At(x.balance, Key(x.taker.user, AVAILABLE, GiveAsset(m, x.taker.side))) >= Budget(x.taker)
    && Covered(m, x.balance, x.makers, Opposite(x.taker.side))
  }

  /** Frozen balances cover the collateral of the orders on this side. */
  ghost predicate Covered(m: Market, b: Balance, s: seq<Order>, side: Side) {
    forall u :: At(b, Key(u, FREEZE, GiveAsset(m, side))) >= SumFreeze(s, u)
  }

  lemma PricedSide(m: Market, s: seq<Order>, side: Side)
    requires SideOk(m, s, side)
    ensures Priced(s) && OneSide(s, side)
  {
  }

  // ----- Settlement in exact terms

  /** What one balance changes by when a party settles. */
  function SettleChange(assets: Assets, k: Key, user: UserId, from: Kind, pays: Asset, paid: Dec,
                        gets: Asset, gained: Dec, fee: Dec): Dec
    requires gets in assets
  {
    (if k == Key(user, AVAILABLE, gets) then gained - RoundUp(fee, assets[gets].precSave) else 0.0)
    - (if k == Key(user, from, pays) then paid else 0.0)
  }

  function SettleTotal(assets: Assets, asset: Asset, pays: Asset, paid: Dec, gets: Asset, gained: Dec, fee: Dec): Dec
    requires gets in assets
  {
    (if asset == gets then gained - RoundUp(fee, assets[gets].precSave) else 0.0)
    - (if asset == pays then paid else 0.0)
  }

  lemma SettleExact(assets: Assets, b: Balance, user: UserId, from: Kind, pays: Asset, paid: Dec,
                    gets: Asset, gained: Dec, fee: Dec)
    requires Sound(assets, b) && pays in assets && gets in assets && pays != gets
    requires 0.0 <= paid <= At(b, Key(user, from, pays)) && OnGrid(paid, assets[pays].precSave)
    requires 0.0 <= fee <= gained && OnGrid(gained, assets[gets].precSave)
    ensures var r := Settle(assets, b, user, from, pays, paid, gets, gained, fee);
      && r.ok && Sound(assets, r.balance)
      && (forall k :: At(r.balance, k) == At(b, k) + SettleChange(assets, k, user, from, pays, paid, gets, gained, fee))
      && (forall a :: Total(r.balance, a) == Total(b, a) + SettleTotal(assets, a, pays, paid, gets, gained, fee))
  {
    var k1, k2, p := Key(user, from, pays), Key(user, AVAILABLE, gets), assets[gets].precSave;
    SubChanges(assets, b, k1, paid);
    RoundUpExact(paid, assets[pays].precSave);
    var b1 := Sub(assets, b, k1, paid).balance;
    AddChanges(assets, b1, k2, gained);
    var b2 := Add(assets, b1, k2, gained).balance;
    SoundAt(assets, b1, k2);
    if fee > 0.0 {
      SubChanges(assets, b2, k2, fee);
    } else {
      OnGridZero(p);
      RoundUpExact(0.0, p);
    }
  }
}
