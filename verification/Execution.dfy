/** What a whole match keeps and where it ends. */
module Execution {
  import opened Decimal
  import opened Balances
  import opened Orders
  import opened Matching
  import opened MatchingProofs

  /** The part of an order that a trade never changes. */
  ghost predicate SameOrder(a: Order, b: Order) {
    && a.id == b.id && a.kind == b.kind && a.side == b.side && a.user == b.user && a.price == b.price
    && a.amount == b.amount && a.takerFee == b.takerFee && a.makerFee == b.makerFee
  }

  /** A maker that keeps some of its amount leaves a taker that can trade no more: it is either filled,
    or a market buy that cannot pay for another unit of stock. */
  lemma PartialFillStops(assets: Assets, m: Market, x: Match)
    requires MatchOk(assets, m, x) && Priced(x.makers) && !Stops(m, x)
    requires |Fill(assets, m, x).makers| == |x.makers|
    ensures Priced(Fill(assets, m, x).makers) && Stops(m, Fill(assets, m, x))
  {
    hide Mul, Div, FillBalance;
    var y := Fill(assets, m, x);
    var taker, maker := x.taker, x.makers[0];
    FillKeeps(assets, m, x);
    PricedSide(m, y.makers, Opposite(taker.side));
    assert Resting(m, maker, Opposite(taker.side));
    if SpendsBudget(taker) {
      var q := TradeAmount(m, taker, maker);
      AffordableIsFloor(taker.left, maker.price, m.stockPrec);
      MulSplit(maker.price, q, Unit(m.stockPrec));
      NoUnitAffordable(y.taker.left, maker.price, m.stockPrec);
    }
  }

  lemma FillShape(assets: Assets, m: Market, x: Match)
    requires x.makers != [] && x.makers[0].price > 0.0
    ensures |Fill(assets, m, x).makers| == |x.makers| || |Fill(assets, m, x).makers| == |x.makers| - 1
  {
    hide Mul, Div, FillBalance, Truncate;
  }

  lemma NoUnitAffordable(left: Dec, price: Dec, prec: nat)
    requires 0.0 <= left < Mul(price, Unit(prec)) && price > 0.0
    ensures Truncate(Div(left, price), prec) == 0.0
  {
    hide Mul, Div;
    AffordableIsFloor(left, price, prec);
    var q := Truncate(Div(left, price), prec);
    if q > 0.0 {
      OnGridZero(prec);
      GridGap(0.0, q, prec);
      MulMono(price, price, Unit(prec), q);
    }
  }

  /** What a match does to the ledger: frozen balances follow the collateral of the makers, and each
    asset's total falls by exactly the fees charged for the new deals. */
  ghost predicate MatchEffect(assets: Assets, m: Market, x: Match, y: Match) {
    var lock := GiveAsset(m, Opposite(x.taker.side));
    && (forall u, a :: At(y.balance, Key(u, FREEZE, a))
                       == At(x.balance, Key(u, FREEZE, a))
                       + (if a == lock then SumFreeze(y.makers, u) - SumFreeze(x.makers, u) else 0.0))
    && x.deals <= y.deals && y.lastDeal == x.lastDeal + |y.deals| - |x.deals|
    && (forall a :: Total(y.balance, a) == Total(x.balance, a) - SumCharged(assets, y.deals[|x.deals|..], a))
  }

  /** Every match ends consistent, with nothing left to trade, and moves the ledger only as described. */
  lemma {:induction false} ExecuteKeeps(assets: Assets, m: Market, x: Match)
    requires MatchOk(assets, m, x) && Priced(x.makers)
    ensures var y := Execute(assets, m, x);
      && MatchOk(assets, m, y) && Priced(y.makers) && Stops(m, y)
      && SameOrder(x.taker, y.taker) && MatchEffect(assets, m, x, y)
      && (forall o | o in y.makers :: exists o' | o' in x.makers :: SameOrder(o, o'))
    decreases |x.makers|
  {
    hide Mul, Div, FillBalance, Charged, TradeAmount, Sound, Covered, Budget;
    if Stops(m, x) {
      assert x.deals[|x.deals|..] == [];
    } else {
      var y := Fill(assets, m, x);
      FillKeeps(assets, m, x);
      PricedSide(m, y.makers, Opposite(x.taker.side));
      assert y.deals[|x.deals|..] == [y.deals[|x.deals|]];
      MakersSame(x.makers, TradeAmount(m, x.taker, x.makers[0]));
      if |y.makers| == |x.makers| {
        PartialFillStops(assets, m, x);
        assert y.deals[|y.deals|..] == [];
        MatchChain(assets, m, x, y, y);
      } else {
        var z := Execute(assets, m, y);
        ExecuteKeeps(assets, m, y);
        MatchChain(assets, m, x, y, z);
        forall o | o in z.makers ensures exists o' | o' in x.makers :: SameOrder(o, o') {
          var o1 :| o1 in y.makers && SameOrder(o, o1);
          var o2 :| o2 in x.makers && SameOrder(o1, o2);
        }
      }
    }
  }

  lemma MakersSame(makers: seq<Order>, amount: Dec)
    requires makers != []
    ensures forall o | o in MakersAfter(makers, amount) :: exists o' | o' in makers :: SameOrder(o, o')
  {
    forall o | o in MakersAfter(makers, amount) ensures exists o' | o' in makers :: SameOrder(o, o') {
      if o in makers[1..] { assert SameOrder(o, o); } else { assert SameOrder(o, makers[0]); }
    }
  }

  lemma MatchChain(assets: Assets, m: Market, x: Match, y: Match, z: Match)
    requires MarketOk(assets, m) && FillEffect(assets, m, x, y) && y.lastDeal == x.lastDeal + 1
    requires x.taker.side == y.taker.side && MatchEffect(assets, m, y, z)
    ensures MatchEffect(assets, m, x, z)
  {
    hide Charged;
    var n := |x.deals|;
    assert z.deals[n..] == [y.deals[n]] + z.deals[n + 1..];
    assert x.deals <= z.deals;
    forall u, a ensures At(z.balance, Key(u, FREEZE, a))
      == At(x.balance, Key(u, FREEZE, a))
         + (if a == GiveAsset(m, Opposite(x.taker.side)) then SumFreeze(z.makers, u) - SumFreeze(x.makers, u) else 0.0)
    {
      assert At(y.balance, Key(u, FREEZE, a)) == At(y.balance, Key(u, FREEZE, a));
    }
    forall a ensures Total(z.balance, a) == Total(x.balance, a) - SumCharged(assets, z.deals[n..], a) {
      assert SumCharged(assets, z.deals[n..], a)
        == Charged(assets, y.deals[n], a) + SumCharged(assets, z.deals[n + 1..], a);
    }
  }
}
