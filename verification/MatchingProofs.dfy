/** What one trade, and so every match, keeps. */
module MatchingProofs {
  import opened Decimal
  import opened Balances
  import opened Orders
  import opened Matching

  // ----- Arithmetic of one trade

  /** `mpd_div` then `mpd_rescale`: the whole number of stock units that the money buys. */
  lemma AffordableIsFloor(left: Dec, price: Dec, prec: nat)
    requires left >= 0.0 && price > 0.0
    ensures var q := Truncate(Div(left, price), prec);
      OnGrid(q, prec) && q >= 0.0 && Mul(price, q) <= left < Mul(price, q + Unit(prec))
  {
    hide Mul, Div;
    var r := Div(left, price);
    DivMul(left, price);
    TruncateIsFloor(r, prec);
    var q := Truncate(r, prec);
    MulMono(price, price, q, r);
    MulStrict(price, r, q + Unit(prec));
  }

  lemma GiveOnGrid(assets: Assets, m: Market, side: Side, price: Dec, amount: Dec)
    requires MarketOk(assets, m) && OnGrid(price, m.moneyPrec) && OnGrid(amount, m.stockPrec)
    ensures OnGrid(Give(side, price, amount), assets[GiveAsset(m, side)].precSave)
  {
    hide Mul;
    if side == ASK {
      OnGridFiner(amount, m.stockPrec, assets[m.stock].precSave);
    } else {
      GridMul(price, m.moneyPrec, amount, m.stockPrec);
      OnGridFiner(Mul(price, amount), m.moneyPrec + m.stockPrec, assets[m.money].precSave);
    }
  }

  /** A fee never exceeds what the party was paid. */
  lemma FeeBounded(side: Side, price: Dec, amount: Dec, rate: Dec)
    requires price > 0.0 && amount > 0.0 && 0.0 <= rate < 1.0
    ensures 0.0 <= FeeOf(side, price, amount, rate) <= Give(Opposite(side), price, amount)
  {
    hide Mul;
    MulPos(price, amount);
    PartOf(Give(Opposite(side), price, amount), rate);
  }

  // ----- One trade

  /** The traded amount is positive, whole, and within what both parties have. */
  lemma TradeAmountOk(assets: Assets, m: Market, x: Match)
    requires MatchOk(assets, m, x) && Priced(x.makers) && !Stops(m, x)
    ensures var maker := x.makers[0];
      var amount := TradeAmount(m, x.taker, maker);
      && 0.0 < amount <= maker.left && OnGrid(amount, m.stockPrec)
      && 0.0 < Give(x.taker.side, maker.price, amount) <= Budget(x.taker)
      && (!SpendsBudget(x.taker) ==> amount <= x.taker.left)
  {
    hide Mul, Div;
    var taker, maker := x.taker, x.makers[0];
    assert Resting(m, maker, Opposite(taker.side));
    var amount := TradeAmount(m, taker, maker);
    if SpendsBudget(taker) {
      AffordableIsFloor(taker.left, maker.price, m.stockPrec);
      MulMono(maker.price, maker.price, amount, Truncate(Div(taker.left, maker.price), m.stockPrec));
    } else if taker.kind == LIMIT && taker.side == BID {
      MulMono(maker.price, taker.price, amount, taker.left);
    }
    MulPos(maker.price, amount);
  }

  /** The order records stay consistent; in particular each bid pays at most, and each ask receives at
    least, its own price for everything it has traded. */
  lemma TradedRecord(m: Market, o: Order, k: Order, price: Dec, amount: Dec, fee: Dec)
    requires TradedOk(m, o) && amount > 0.0 && OnGrid(amount, m.stockPrec) && OnGrid(price, m.moneyPrec) && fee >= 0.0
    requires o.price >= 0.0 && price >= 0.0
    requires if o.side == ASK then o.price <= price else price <= o.price
    requires k.side == o.side && k.price == o.price && k.dealStock == o.dealStock + amount
    requires k.dealMoney == o.dealMoney + Mul(price, amount) && k.dealFee == o.dealFee + fee
    ensures TradedOk(m, k)
  {
    hide Mul;
    OnGridAdd(o.dealStock, amount, m.stockPrec);
    GridMul(price, m.moneyPrec, amount, m.stockPrec);
    OnGridAdd(o.dealMoney, Mul(price, amount), m.stockPrec + m.moneyPrec);
    if o.side == ASK { MulMono(o.price, price, amount, amount); } else { MulMono(price, o.price, amount, amount); }
    MulSplit(o.price, o.dealStock, amount);
  }

  lemma MakerStays(m: Market, maker: Order, side: Side, amount: Dec)
    requires Resting(m, maker, side) && 0.0 < amount <= maker.left && OnGrid(amount, m.stockPrec)
    ensures var k := MakerAfter(maker, amount);
      && LimitOk(m, k) && k.side == side && k.left >= 0.0 && k.freeze == Give(side, k.price, k.left)
      && (k.left > 0.0 ==> Resting(m, k, side)) && (k.left == 0.0 ==> k.freeze == 0.0)
  {
    hide Mul, FeeOf, OnGrid, TradedOk;
    FeeBounded(side, maker.price, amount, maker.makerFee);
    var k := MakerAfter(maker, amount);
    TradedRecord(m, maker, k, maker.price, amount, FeeOf(side, maker.price, amount, maker.makerFee));
    OnGridAdd(maker.left, amount, m.stockPrec);
    MulSplit(maker.price, maker.left, amount);
    MulZero(maker.price);
  }

  lemma TakerStays(m: Market, taker: Order, maker: Order, amount: Dec)
    requires TakerOk(m, taker) && Resting(m, maker, Opposite(taker.side)) && !TooExpensive(taker, maker)
    requires amount > 0.0 && OnGrid(amount, m.stockPrec)
    requires Give(taker.side, maker.price, amount) <= Budget(taker)
    requires !SpendsBudget(taker) ==> amount <= taker.left
    ensures var t := TakerAfter(taker, maker.price, amount);
      TakerOk(m, t) && Budget(t) <= Budget(taker) - Give(taker.side, maker.price, amount)
  {
    hide Mul, FeeOf, OnGrid, TradedOk;
    var t := TakerAfter(taker, maker.price, amount);
    var fee := FeeOf(taker.side, maker.price, amount, taker.takerFee);
    FeeBounded(taker.side, maker.price, amount, taker.takerFee);
    if taker.kind == LIMIT {
      TradedRecord(m, taker, t, maker.price, amount, fee);
      OnGridAdd(taker.left, amount, m.stockPrec);
      if taker.side == BID {
        MulSplit(taker.price, taker.left, amount);
        MulMono(maker.price, taker.price, amount, amount);
      }
      assert LimitOk(m, t);
    } else {
      if taker.side == ASK { OnGridAdd(taker.left, amount, m.stockPrec); }
      assert MarketTakerOk(m, t);
    }
  }

  lemma SideStays(m: Market, makers: seq<Order>, side: Side, amount: Dec)
    requires SideOk(m, makers, side) && makers != [] && 0.0 < amount <= makers[0].left && OnGrid(amount, m.stockPrec)
    ensures SideOk(m, MakersAfter(makers, amount), side)
    ensures forall u :: SumFreeze(MakersAfter(makers, amount), u)
                        == SumFreeze(makers, u) - (if u == makers[0].user then Give(side, makers[0].price, amount)
                          else 0.0)
  {
    hide Mul;
    var k := MakerAfter(makers[0], amount);
    MakerStays(m, makers[0], side, amount);
    SortedTail(makers);
    if k.left != 0.0 {
      forall o | o in makers[1..] ensures Precedes(k, o) {
        assert Precedes(makers[0], o);
      }
      SortedCons(k, makers[1..]);
      assert ([k] + makers[1..])[1..] == makers[1..];
    }
  }

  lemma {:induction false} SumFreezeHead(m: Market, s: seq<Order>, side: Side)
    requires SideOk(m, s, side) && s != []
    ensures SumFreeze(s, s[0].user) >= s[0].freeze
  {
    hide Mul;
    forall o | o in s[1..] ensures o.freeze >= 0.0 {
      assert Resting(m, o, side);
      if side == BID { MulPos(o.price, o.left); }
    }
    SumFreezeNonNeg(s[1..], s[0].user);
  }

  /** What leaves the ledger with a deal: both fees, each rounded up to a whole unit. */
  function Charged(assets: Assets, d: Deal, asset: Asset): Dec {
    if asset !in assets then 0.0
    else
      (if asset == d.stock then RoundUp(d.bidFee, assets[asset].precSave) else 0.0)
      + (if asset == d.money then RoundUp(d.askFee, assets[asset].precSave) else 0.0)
  }

  function SumCharged(assets: Assets, deals: seq<Deal>, asset: Asset): Dec {
    if deals == [] then 0.0 else Charged(assets, deals[0], asset) + SumCharged(assets, deals[1..], asset)
  }

  /** What a trade does to each balance. */
  ghost predicate FillEffect(assets: Assets, m: Market, x: Match, y: Match)
    requires MarketOk(assets, m)
  {
    var lock := GiveAsset(m, Opposite(x.taker.side));
    && (forall u, a :: At(y.balance, Key(u, FREEZE, a))
                       == At(x.balance, Key(u, FREEZE, a))
                       + (if a == lock then SumFreeze(y.makers, u) - SumFreeze(x.makers, u) else 0.0))
    && |y.deals| == |x.deals| + 1 && y.deals[..|x.deals|] == x.deals
    && y.deals[|x.deals|].stock == m.stock && y.deals[|x.deals|].money == m.money
    && (forall a :: Total(y.balance, a) == Total(x.balance, a) - Charged(assets, y.deals[|x.deals|], a))
  }

  /** The balances `b` are those of `x` after both parties of the next trade have settled. */
  ghost predicate BothSettled(assets: Assets, m: Market, x: Match, b: Balance)
    requires MarketOk(assets, m) && x.makers != [] && x.makers[0].price > 0.0
  {
    var maker, amount := x.makers[0], TradeAmount(m, x.taker, x.makers[0]);
    var price, side := maker.price, x.taker.side;
    var pays, gets := GiveAsset(m, side), GiveAsset(m, Opposite(side));
    var paid, gained := Give(side, price, amount), Give(Opposite(side), price, amount);
    var feeT, feeK := FeeOf(side, price, amount, x.taker.takerFee),
      FeeOf(Opposite(side), price, amount, maker.makerFee);
    && Sound(assets, b)
    && RoundUp(feeK, assets[pays].precSave) <= paid
    && (forall k :: At(b, k) == At(x.balance, k)
                    + SettleChange(assets, k, x.taker.user, AVAILABLE, pays, paid, gets, gained, feeT)
                    + SettleChange(assets, k, maker.user, FREEZE, gets, gained, pays, paid, feeK))
    && (forall a :: Total(b, a) == Total(x.balance, a)
                    + SettleTotal(assets, a, pays, paid, gets, gained, feeT)
                    + SettleTotal(assets, a, gets, gained, pays, paid, feeK))
  }

  /** Both settlements of a trade succeed, with these effects. */
  lemma SettleBoth(assets: Assets, m: Market, x: Match)
    requires MatchOk(assets, m, x) && Priced(x.makers) && !Stops(m, x)
    ensures var r := FillBalance(assets, m, x.balance, x.taker, x.makers[0], TradeAmount(m, x.taker, x.makers[0]));
      r.ok && BothSettled(assets, m, x, r.balance)
  {
    hide Mul, Div, FeeOf, Give, OnGrid, RoundUp, Settle, Sound, SettleChange, SettleTotal;
    var maker, amount := x.makers[0], TradeAmount(m, x.taker, x.makers[0]);
    var price, side := maker.price, x.taker.side;
    var pays, gets := GiveAsset(m, side), GiveAsset(m, Opposite(side));
    var paid, gained := Give(side, price, amount), Give(Opposite(side), price, amount);
    var feeT, feeK := FeeOf(side, price, amount, x.taker.takerFee),
      FeeOf(Opposite(side), price, amount, maker.makerFee);
    assert Resting(m, maker, Opposite(side));
    TradeAmountOk(assets, m, x);
    GiveOnGrid(assets, m, side, price, amount);
    GiveOnGrid(assets, m, Opposite(side), price, amount);
    FeeBounded(side, price, amount, x.taker.takerFee);
    FeeBounded(Opposite(side), price, amount, maker.makerFee);
    RoundUpLeast(feeK, paid, assets[pays].precSave);
    SettleExact(assets, x.balance, x.taker.user, AVAILABLE, pays, paid, gets, gained, feeT);
    var t := SettleOrder(assets, m, x.balance, x.taker, AVAILABLE, price, amount, x.taker.takerFee);
    assert t == Settle(assets, x.balance, x.taker.user, AVAILABLE, pays, paid, gets, gained, feeT);
    MakerCovers(assets, m, x);
    SettleLeavesFrozen(assets, Key(maker.user, FREEZE, gets), x.taker.user, pays, paid, gets, gained, feeT);
    assert At(t.balance, Key(maker.user, FREEZE, gets)) == At(x.balance, Key(maker.user, FREEZE, gets));
    SettleExact(assets, t.balance, maker.user, FREEZE, gets, gained, pays, paid, feeK);
    MakerStays(m, maker, Opposite(side), amount);
  }

  lemma SettleLeavesFrozen(assets: Assets, k: Key, user: UserId, pays: Asset, paid: Dec, gets: Asset, gained: Dec,
          fee: Dec)
    requires gets in assets && k.kind == FREEZE
    ensures SettleChange(assets, k, user, AVAILABLE, pays, paid, gets, gained, fee) == 0.0
  {
  }

  /** The frozen balance of the best maker covers its part of the trade. */
  lemma MakerCovers(assets: Assets, m: Market, x: Match)
    requires MatchOk(assets, m, x) && Priced(x.makers) && !Stops(m, x)
    ensures var maker, amount := x.makers[0], TradeAmount(m, x.taker, x.makers[0]);
      var gets := GiveAsset(m, Opposite(x.taker.side));
      0.0 <= Give(Opposite(x.taker.side), maker.price, amount) <= At(x.balance, Key(maker.user, FREEZE, gets))
  {
    hide Mul, Div;
    var maker, amount := x.makers[0], TradeAmount(m, x.taker, x.makers[0]);
    var side := Opposite(x.taker.side);
    assert Resting(m, maker, side);
    TradeAmountOk(assets, m, x);
    SumFreezeHead(m, x.makers, side);
    MulMono(maker.price, maker.price, amount, maker.left);
  }

  lemma FrozenFollows(assets: Assets, m: Market, x: Match, b: Balance)
    requires MatchOk(assets, m, x) && Priced(x.makers) && !Stops(m, x) && BothSettled(assets, m, x, b)
    ensures var lock := GiveAsset(m, Opposite(x.taker.side));
      var paid := Give(Opposite(x.taker.side), x.makers[0].price, TradeAmount(m, x.taker, x.makers[0]));
      forall u, a :: At(b, Key(u, FREEZE, a))
                     == At(x.balance, Key(u, FREEZE, a)) - (if a == lock && u == x.makers[0].user then paid else 0.0)
  {
    hide Mul, Div, TradeAmount, FeeOf, Sound;
  }

  lemma BudgetRemains(assets: Assets, m: Market, x: Match, b: Balance)
    requires MatchOk(assets, m, x) && Priced(x.makers) && !Stops(m, x) && BothSettled(assets, m, x, b)
    ensures var k := Key(x.taker.user, AVAILABLE, GiveAsset(m, x.taker.side));
      At(b, k) >= At(x.balance, k) - Give(x.taker.side, x.makers[0].price, TradeAmount(m, x.taker, x.makers[0]))
  {
    hide Mul, Div, TradeAmount, FeeOf, Sound;
  }

  lemma TotalsFall(assets: Assets, m: Market, x: Match, b: Balance, id: nat)
    requires MatchOk(assets, m, x) && Priced(x.makers) && !Stops(m, x) && BothSettled(assets, m, x, b)
    ensures var d := DealOf(id, m, x.taker, x.makers[0], TradeAmount(m, x.taker, x.makers[0]));
      forall a :: Total(b, a) == Total(x.balance, a) - Charged(assets, d, a)
  {
    hide Mul, Div, TradeAmount, FeeOf, Sound;
    assert Resting(m, x.makers[0], Opposite(x.taker.side));
  }

  /** Every balance operation of a trade succeeds, the match stays consistent, frozen balances follow
    the collateral of the makers, and only the fees leave the ledger. Self-trades are included. */
  lemma FillKeeps(assets: Assets, m: Market, x: Match)
    requires MatchOk(assets, m, x) && Priced(x.makers) && !Stops(m, x)
    ensures FillBalance(assets, m, x.balance, x.taker, x.makers[0], TradeAmount(m, x.taker, x.makers[0])).ok
    ensures MatchOk(assets, m, Fill(assets, m, x))
    ensures FillEffect(assets, m, x, Fill(assets, m, x))
  {
    hide Mul, Div, FeeOf, FillBalance;
    var y := Fill(assets, m, x);
    var maker, amount := x.makers[0], TradeAmount(m, x.taker, x.makers[0]);
    assert Resting(m, maker, Opposite(x.taker.side));
    TradeAmountOk(assets, m, x);
    SettleBoth(assets, m, x);
    FrozenFollows(assets, m, x, y.balance);
    BudgetRemains(assets, m, x, y.balance);
    TotalsFall(assets, m, x, y.balance, x.lastDeal + 1);
    SideStays(m, x.makers, Opposite(x.taker.side), amount);
    TakerStays(m, x.taker, maker, amount);
    assert y.deals[..|x.deals|] == x.deals;
  }
}
