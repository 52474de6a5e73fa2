/** Price-time priority: which makers a match uses, and that no other choice serves the taker better. */
module Priority {
  import opened Decimal
  import opened Balances
  import opened Orders
  import opened Matching
  import opened MatchingProofs
  import opened Execution

  ghost function NewDeals(x: Match, y: Match): seq<Deal> {
    if x.deals <= y.deals then y.deals[|x.deals|..] else []
  }

  ghost function SumAmount(deals: seq<Deal>): Dec {
    if deals == [] then 0.0 else deals[0].amount + SumAmount(deals[1..])
  }

  ghost function SumMoney(deals: seq<Deal>): Dec {
    if deals == [] then 0.0 else Mul(deals[0].price, deals[0].amount) + SumMoney(deals[1..])
  }

  ghost function SumFee(deals: seq<Deal>, side: Side): Dec {
    if deals == [] then 0.0
    else (if side == ASK then deals[0].askFee else deals[0].bidFee) + SumFee(deals[1..], side)
  }

  /** The deals use up the best makers in book order: deal number `j` is with maker number `j`, at the
    price of that maker, and only the last maker may keep a part of its amount. */
  ghost predicate BestFirst(m: Market, taker: Order, makers: seq<Order>, lastDeal: nat, d: seq<Deal>,
          rest: seq<Order>) {
    var n := |d|;
    && n <= |makers|
    && (forall j | 0 <= j < n :: d[j] == DealOf(lastDeal + 1 + j, m, taker, makers[j], d[j].amount))
    && (forall j | 0 <= j < n :: 0.0 < d[j].amount <= makers[j].left && OnGrid(d[j].amount, m.stockPrec))
    && (forall j | 0 <= j < n :: !TooExpensive(taker, makers[j]))
    && (forall j | 0 <= j < n - 1 :: d[j].amount == makers[j].left)
    && rest == (if n > 0 && d[n - 1].amount < makers[n - 1].left
                then [MakerAfter(makers[n - 1], d[n - 1].amount)] + makers[n..] else makers[n..])
  }

  ghost predicate UsesBestMakers(m: Market, x: Match, y: Match) {
    x.deals <= y.deals && BestFirst(m, x.taker, x.makers, x.lastDeal, NewDeals(x, y), y.makers)
  }

  /** The taker's record is the sum of its deals. */
  ghost predicate TakerRecord(x: Match, y: Match) {
    var d, a, b := NewDeals(x, y), x.taker, y.taker;
    && b.dealStock == a.dealStock + SumAmount(d)
    && b.dealMoney == a.dealMoney + SumMoney(d)
    && b.dealFee == a.dealFee + SumFee(d, a.side)
    && b.left == a.left - (if SpendsBudget(a) then SumMoney(d) else SumAmount(d))
  }

  lemma FillDeal(assets: Assets, m: Market, x: Match, d0: Deal)
    requires MatchOk(assets, m, x) && Priced(x.makers) && !Stops(m, x)
    requires d0 == DealOf(x.lastDeal + 1, m, x.taker, x.makers[0], TradeAmount(m, x.taker, x.makers[0]))
    ensures var y := Fill(assets, m, x);
      && MatchOk(assets, m, y) && Priced(y.makers) && SameOrder(x.taker, y.taker)
      && NewDeals(x, y) == [d0] && x.deals <= y.deals && y.lastDeal == x.lastDeal + 1
      && d0 == DealOf(x.lastDeal + 1, m, x.taker, x.makers[0], d0.amount) && !TooExpensive(x.taker, x.makers[0])
      && 0.0 < d0.amount <= x.makers[0].left && OnGrid(d0.amount, m.stockPrec)
      && y.taker == TakerAfter(x.taker, x.makers[0].price, d0.amount)
      && y.makers == MakersAfter(x.makers, d0.amount)
      && y.makers == (if d0.amount < x.makers[0].left then [MakerAfter(x.makers[0], d0.amount)] + x.makers[1..]
        else x.makers[1..])
  {
    hide Mul, Div, FillBalance, FeeOf, Sound, Covered, Budget, FillEffect, OnGrid, TradedOk, FeesOk, MatchOk;
    FillKeeps(assets, m, x);
    TradeAmountOk(assets, m, x);
    MatchSide(assets, m, Fill(assets, m, x));
    PricedSide(m, Fill(assets, m, x).makers, Opposite(x.taker.side));
  }

  lemma NoDeals(m: Market, x: Match)
    ensures NewDeals(x, x) == [] && UsesBestMakers(m, x, x) && TakerRecord(x, x)
  {
    assert NewDeals(x, x) == [];
  }

  lemma MatchSide(assets: Assets, m: Market, x: Match)
    requires MatchOk(assets, m, x)
    ensures SideOk(m, x.makers, Opposite(x.taker.side))
  {
  }

  lemma {:induction false} ExecuteUsesBestMakers(assets: Assets, m: Market, x: Match)
    requires MatchOk(assets, m, x) && Priced(x.makers)
    ensures var y := Execute(assets, m, x);
      UsesBestMakers(m, x, y) && TakerRecord(x, y)
    decreases |x.makers|
  {
    hide Mul, Div, FillBalance, FeeOf, Fill, MatchOk, OnGrid, DealOf, MakerAfter, TakerAfter, TooExpensive,
      TradeAmount, BestFirst, TakerRecord;
    if Stops(m, x) {
      NoDeals(m, x);
    } else {
      var y := Fill(assets, m, x);
      var d0 := DealOf(x.lastDeal + 1, m, x.taker, x.makers[0], TradeAmount(m, x.taker, x.makers[0]));
      FillDeal(assets, m, x, d0);
      if |y.makers| == |x.makers| {
        BestFirstOne(m, x.taker, x.makers, x.lastDeal, d0);
        NoDeals(m, y);
        TakerRecordCons(m, x, y, y, d0);
      } else {
        var z := Execute(assets, m, y);
        ExecuteUsesBestMakers(assets, m, y);
        assert NewDeals(x, z) == [d0] + NewDeals(y, z);
        BestFirstCons(m, x.taker, y.taker, x.makers, x.lastDeal, d0, NewDeals(y, z), z.makers);
        TakerRecordCons(m, x, y, z, d0);
      }
    }
  }

  // ----- Price and time priority

  /** The order that rested when the deal was made. */
  function MakerId(d: Deal, takerSide: Side): OrderId {
    if takerSide == ASK then d.bid else d.ask
  }

  /** Of two makers the one to trade with first: at the better price, or at the same price with the smaller id. */
  predicate Earlier(side: Side, a: Order, b: Order) {
    (if side == ASK then a.price < b.price else a.price > b.price) || (a.price == b.price && a.id < b.id)
  }

  lemma EarlierStandsFirst(m: Market, makers: seq<Order>, side: Side, a: nat, b: nat)
    requires SideOk(m, makers, side) && a < |makers| && b < |makers| && Earlier(side, makers[a], makers[b])
    ensures a < b
  {
    hide Resting;
    PricedSide(m, makers, side);
    SortedIsPriceTime(makers, side);
  }

  /** A maker trades only after every maker with a better price, and every older maker at the same price, has been
    used up by one deal. */
  lemma PriceTimeKept(assets: Assets, m: Market, x: Match, a: Order, b: Order, k: nat)
    requires MatchOk(assets, m, x) && Priced(x.makers) && a in x.makers && b in x.makers
    requires Earlier(Opposite(x.taker.side), a, b)
    requires var d := NewDeals(x, Execute(assets, m, x)); k < |d| && MakerId(d[k], x.taker.side) == b.id
    ensures var d := NewDeals(x, Execute(assets, m, x));
      exists j | 0 <= j < k :: MakerId(d[j], x.taker.side) == a.id && d[j].price == a.price && d[j].amount == a.left
  {
    hide Mul, Execute, MatchOk, FeeOf, OnGrid, TooExpensive, NewDeals, Sorted, Resting, Earlier;
    MatchSide(assets, m, x);
    var y := Execute(assets, m, x);
    ExecuteUsesBestMakers(assets, m, x);
    var d := NewDeals(x, y);
    var i :| 0 <= i < |x.makers| && x.makers[i] == a;
    var j :| 0 <= j < |x.makers| && x.makers[j] == b;
    DistinctIds(x.makers);
    assert d[k] == DealOf(x.lastDeal + 1 + k, m, x.taker, x.makers[k], d[k].amount);
    EarlierStandsFirst(m, x.makers, Opposite(x.taker.side), i, j);
    assert d[i] == DealOf(x.lastDeal + 1 + i, m, x.taker, x.makers[i], d[i].amount);
  }

  lemma BestFirstOne(m: Market, taker: Order, makers: seq<Order>, lastDeal: nat, d0: Deal)
    requires makers != [] && !TooExpensive(taker, makers[0])
    requires d0 == DealOf(lastDeal + 1, m, taker, makers[0], d0.amount)
    requires 0.0 < d0.amount <= makers[0].left && OnGrid(d0.amount, m.stockPrec)
    requires MakersAfter(makers, d0.amount) == [MakerAfter(makers[0], d0.amount)] + makers[1..]
    requires d0.amount < makers[0].left
    ensures BestFirst(m, taker, makers, lastDeal, [d0], MakersAfter(makers, d0.amount))
  {
    hide Mul, FeeOf, OnGrid, MakerAfter;
  }

  /** A full first deal goes in front of the deals with the other makers. */
  lemma BestFirstCons(m: Market, taker: Order, taker': Order, makers: seq<Order>, lastDeal: nat,
                      d0: Deal, d: seq<Deal>, rest: seq<Order>)
    requires makers != [] && SameOrder(taker, taker') && !TooExpensive(taker, makers[0])
    requires d0 == DealOf(lastDeal + 1, m, taker, makers[0], d0.amount)
    requires 0.0 < d0.amount == makers[0].left && OnGrid(d0.amount, m.stockPrec)
    requires BestFirst(m, taker', makers[1..], lastDeal + 1, d, rest)
    ensures BestFirst(m, taker, makers, lastDeal, [d0] + d, rest)
  {
    hide Mul, FeeOf, OnGrid, MakerAfter;
    var e := [d0] + d;
    forall j | 0 <= j < |e|
      ensures e[j] == DealOf(lastDeal + 1 + j, m, taker, makers[j], e[j].amount)
      ensures 0.0 < e[j].amount <= makers[j].left && OnGrid(e[j].amount, m.stockPrec) && !TooExpensive(taker, makers[j])
      ensures j < |e| - 1 ==> e[j].amount == makers[j].left
    {
      if j > 0 {
        assert e[j] == d[j - 1] && makers[j] == makers[1..][j - 1];
      }
    }
    assert makers[1..][|d|..] == makers[|e|..];
    assert |d| > 0 ==> d[|d| - 1] == e[|e| - 1] && makers[1..][|d| - 1] == makers[|e| - 1];
  }

  lemma TakerRecordCons(m: Market, x: Match, y: Match, z: Match, d0: Deal)
    requires x.makers != [] && d0 == DealOf(x.lastDeal + 1, m, x.taker, x.makers[0], d0.amount)
    requires y.taker == TakerAfter(x.taker, x.makers[0].price, d0.amount)
    requires x.deals <= y.deals <= z.deals && NewDeals(x, z) == [d0] + NewDeals(y, z)
    requires TakerRecord(y, z)
    ensures TakerRecord(x, z)
  {
    hide Mul, FeeOf;
    assert NewDeals(x, z)[1..] == NewDeals(y, z);
    SumsCons(d0, NewDeals(y, z));
  }

  lemma SumsCons(d: Deal, rest: seq<Deal>)
    ensures SumAmount([d] + rest) == d.amount + SumAmount(rest)
    ensures SumMoney([d] + rest) == Mul(d.price, d.amount) + SumMoney(rest)
    ensures forall side :: SumFee([d] + rest, side) == (if side == ASK then d.askFee else d.bidFee) + SumFee(rest, side)
  {
    hide Mul;
    assert ([d] + rest)[1..] == rest;
  }

  // ----- No other choice of makers is better

  ghost function Sum(a: seq<Dec>): Dec {
    if a == [] then 0.0 else a[0] + Sum(a[1..])
  }

  /** The money for taking `a[i]` from maker `i`. */
  ghost function Cost(makers: seq<Order>, a: seq<Dec>): Dec
    requires |a| == |makers|
  {
    if a == [] then 0.0 else Mul(makers[0].price, a[0]) + Cost(makers[1..], a[1..])
  }

  /** Any way to take stock from the makers. */
  ghost predicate Allocation(makers: seq<Order>, a: seq<Dec>) {
    |a| == |makers| && forall i | 0 <= i < |a| :: 0.0 <= a[i] <= makers[i].left
  }

  /** What the match took from each maker. */
  ghost function Taken(makers: seq<Order>, deals: seq<Deal>): seq<Dec> {
    seq(|makers|, i requires 0 <= i < |makers| => if i < |deals| then deals[i].amount else 0.0)
  }

  /** `a` takes no more than `g` where the price is below `pivot`, and no less where it is above. */
  ghost predicate WorseOff(makers: seq<Order>, g: seq<Dec>, a: seq<Dec>, pivot: Dec)
    requires |g| == |a| == |makers|
  {
    forall i | 0 <= i < |a| :: (makers[i].price < pivot ==> a[i] <= g[i]) && (makers[i].price > pivot ==> a[i] >= g[i])
  }

  /** Moving amounts from cheap makers to dear ones costs at least `pivot` for each extra unit. */
  lemma {:induction false} ExchangeCost(makers: seq<Order>, g: seq<Dec>, a: seq<Dec>, pivot: Dec)
    requires |g| == |a| == |makers| && WorseOff(makers, g, a, pivot)
    ensures Cost(makers, a) - Cost(makers, g) >= Mul(pivot, Sum(a) - Sum(g))
    decreases |makers|
  {
    if makers == [] {
      MulZero(pivot);
    } else {
      ExchangeCost(makers[1..], g[1..], a[1..], pivot);
      PivotStep(makers[0].price, g[0], a[0], pivot);
      MulSplit(pivot, a[0] - g[0], Sum(a[1..]) - Sum(g[1..]));
      MulSplit(makers[0].price, a[0], g[0]);
      ExchangeSum(Cost(makers, a) - Cost(makers, g), Mul(makers[0].price, a[0] - g[0]),
                  Cost(makers[1..], a[1..]) - Cost(makers[1..], g[1..]), pivot, a[0] - g[0], Sum(a[1..]) - Sum(g[1..]));
    }
  }

  lemma ExchangeSum(all: Dec, first: Dec, rest: Dec, pivot: Dec, d: Dec, ds: Dec)
    requires all == first + rest && first >= Mul(pivot, d) && rest >= Mul(pivot, ds)
    ensures all >= Mul(pivot, d + ds)
  {
    MulSplit(pivot, d, ds);
  }

  lemma PivotStep(price: Dec, g: Dec, a: Dec, pivot: Dec)
    requires (price < pivot ==> a <= g) && (price > pivot ==> a >= g)
    ensures Mul(price, a - g) >= Mul(pivot, a - g)
  {
    if price < pivot {
      assert (pivot - price) * (g - a) >= 0.0;
    } else {
      assert (price - pivot) * (a - g) >= 0.0;
    }
  }

  // ----- Applied to a match

  /** Along a side prices never get better. */
  lemma SortedPrices(m: Market, s: seq<Order>, side: Side, i: nat, j: nat)
    requires SideOk(m, s, side) && i <= j < |s|
    ensures if side == ASK then s[i].price <= s[j].price else s[i].price >= s[j].price
  {
    if i < j {
      assert Precedes(s[i], s[j]);
      assert Resting(m, s[i], side) && Resting(m, s[j], side);
    }
  }

  lemma {:induction false} TakenTotals(makers: seq<Order>, deals: seq<Deal>)
    requires |deals| <= |makers| && forall j | 0 <= j < |deals| :: deals[j].price == makers[j].price
    ensures Sum(Taken(makers, deals)) == SumAmount(deals) && Cost(makers, Taken(makers, deals)) == SumMoney(deals)
    decreases |makers|
  {
    hide Mul;
    var t := Taken(makers, deals);
    if makers != [] {
      var rest := if deals == [] then [] else deals[1..];
      TakenTotals(makers[1..], rest);
      assert t[1..] == Taken(makers[1..], rest);
      MulZero(makers[0].price);
    }
  }

  lemma DealPrices(m: Market, x: Match, y: Match)
    requires UsesBestMakers(m, x, y)
    ensures forall j | 0 <= j < |NewDeals(x, y)| :: NewDeals(x, y)[j].price == x.makers[j].price
  {
  }

  /** What was taken is all of a maker before the last one used, and nothing of a maker after it. */
  lemma UsedShape(m: Market, taker: Order, makers: seq<Order>, lastDeal: nat, d: seq<Deal>, rest: seq<Order>, i: nat)
    requires BestFirst(m, taker, makers, lastDeal, d, rest) && i < |makers|
    ensures (i < |d| - 1 ==> Taken(makers, d)[i] == makers[i].left) && (i >= |d| ==> Taken(makers, d)[i] == 0.0)
  {
    hide Mul, DealOf, OnGrid, FeeOf, TooExpensive;
  }

  /** No other way to trade the same volume with these makers gives the taker a better total: a seller
    receives, and a buyer pays, the best total there is. */
  lemma BestTotal(assets: Assets, m: Market, x: Match, a: seq<Dec>)
    requires MatchOk(assets, m, x) && Priced(x.makers) && Allocation(x.makers, a)
    requires Sum(a) == SumAmount(NewDeals(x, Execute(assets, m, x)))
    ensures var money := SumMoney(NewDeals(x, Execute(assets, m, x)));
      if x.taker.side == ASK then Cost(x.makers, a) <= money else money <= Cost(x.makers, a)
  {
    hide Mul, Execute, MatchOk, BestFirst, NewDeals, Sum, SumAmount, SumMoney, OnGrid;
    MatchSide(assets, m, x);
    var y := Execute(assets, m, x);
    ExecuteUsesBestMakers(assets, m, x);
    var d := NewDeals(x, y);
    var g := Taken(x.makers, d);
    TakenOnGrid(m, x, y);
    if x.makers != [] {
      UsedCount(m, x, y);
      var p := if |d| > 0 then |d| - 1 else 0;
      var pivot := x.makers[p].price;
      forall i | 0 <= i < |a|
        ensures if x.taker.side == ASK then (x.makers[i].price > pivot ==> a[i] <= g[i])
          && (x.makers[i].price < pivot ==> g[i] <= a[i])
                else (x.makers[i].price < pivot ==> a[i] <= g[i]) && (x.makers[i].price > pivot ==> a[i] >= g[i])
      {
        UsedShape(m, x.taker, x.makers, x.lastDeal, d, y.makers, i);
        if i <= p {
          SortedPrices(m, x.makers, Opposite(x.taker.side), i, p);
        } else {
          SortedPrices(m, x.makers, Opposite(x.taker.side), p, i);
        }
      }
      MulZero(pivot);
      if x.taker.side == ASK { ExchangeCost(x.makers, a, g, pivot); } else { ExchangeCost(x.makers, g, a, pivot); }
    }
  }

  lemma UsedCount(m: Market, x: Match, y: Match)
    requires UsesBestMakers(m, x, y)
    ensures |NewDeals(x, y)| <= |x.makers|
  {
  }

  // ----- How much a match trades

  /** The stock on offer at prices the taker accepts. */
  ghost function Acceptable(taker: Order, makers: seq<Order>): Dec {
    if makers == [] then 0.0
    else (if TooExpensive(taker, makers[0]) then 0.0 else makers[0].left) + Acceptable(taker, makers[1..])
  }

  lemma {:induction false} NothingBeyond(m: Market, taker: Order, makers: seq<Order>)
    requires SideOk(m, makers, Opposite(taker.side)) && makers != [] && TooExpensive(taker, makers[0])
    ensures Acceptable(taker, makers) == 0.0
  {
    if |makers| > 1 {
      SortedPrices(m, makers, Opposite(taker.side), 0, 1);
      assert makers[1..][0] == makers[1];
      SortedTail(makers);
      NothingBeyond(m, taker, makers[1..]);
    }
  }

  lemma {:induction false} AcceptableNonNeg(m: Market, taker: Order, makers: seq<Order>)
    requires SideOk(m, makers, Opposite(taker.side))
    ensures Acceptable(taker, makers) >= 0.0
  {
    if makers != [] {
      assert Resting(m, makers[0], Opposite(taker.side));
      SortedTail(makers);
      AcceptableNonNeg(m, taker, makers[1..]);
    }
  }

  /** A limit order, and a market sell, trades exactly the smaller of its size and what is acceptable. */
  lemma {:induction false} VolumeTraded(assets: Assets, m: Market, x: Match)
    requires MatchOk(assets, m, x) && Priced(x.makers) && !SpendsBudget(x.taker)
    ensures var y := Execute(assets, m, x);
      y.taker.left == (if x.taker.left <= Acceptable(x.taker, x.makers) then 0.0
        else x.taker.left - Acceptable(x.taker, x.makers))
    decreases |x.makers|
  {
    hide Mul, Div, FillBalance, Covered, Sound, Budget, FillEffect, LimitOk, MarketTakerOk;
    assert TakerOk(m, x.taker) ==> x.taker.left >= 0.0 by { TakerLeft(m, x.taker); }
    MatchSide(assets, m, x);
    AcceptableNonNeg(m, x.taker, x.makers);
    if Stops(m, x) {
      if x.makers != [] && TooExpensive(x.taker, x.makers[0]) { NothingBeyond(m, x.taker, x.makers); }
    } else {
      var y := Fill(assets, m, x);
      FillKeeps(assets, m, x);
      PricedSide(m, y.makers, Opposite(x.taker.side));
      MatchSide(assets, m, y);
      if |y.makers| == |x.makers| {
        SortedTail(x.makers);
        AcceptableNonNeg(m, x.taker, x.makers[1..]);
      } else {
        VolumeTraded(assets, m, y);
        SameAcceptable(x.taker, y.taker, y.makers);
      }
    }
  }

  lemma TakerLeft(m: Market, o: Order)
    requires TakerOk(m, o)
    ensures o.left >= 0.0
  {
  }

  lemma {:induction false} SameAcceptable(a: Order, b: Order, makers: seq<Order>)
    requires a.kind == b.kind && a.side == b.side && a.price == b.price
    ensures Acceptable(a, makers) == Acceptable(b, makers)
  {
    if makers != [] {
      SameAcceptable(a, b, makers[1..]);
    }
  }

  // ----- A market buy

  lemma {:induction false} SumMono(a: seq<Dec>, b: seq<Dec>)
    requires |a| == |b| && forall i | 0 <= i < |a| :: a[i] <= b[i]
    ensures Sum(a) <= Sum(b)
  {
    if a != [] { SumMono(a[1..], b[1..]); }
  }

  lemma {:induction false} SumOnGrid(a: seq<Dec>, p: nat)
    requires forall i | 0 <= i < |a| :: OnGrid(a[i], p)
    ensures OnGrid(Sum(a), p)
  {
    if a == [] { OnGridZero(p); } else {
      SumOnGrid(a[1..], p);
      OnGridAdd(a[0], Sum(a[1..]), p);
    }
  }

  lemma ResidueBelowUnit(m: Market, taker: Order, best: Order)
    requires SpendsBudget(taker) && taker.left >= 0.0 && best.price > 0.0 && best.left > 0.0
    requires taker.left == 0.0 || TradeAmount(m, taker, best) == 0.0
    ensures taker.left < Mul(best.price, Unit(m.stockPrec))
  {
    hide Mul, Div;
    if taker.left == 0.0 {
      MulPos(best.price, Unit(m.stockPrec));
    } else {
      AffordableIsFloor(taker.left, best.price, m.stockPrec);
      assert Truncate(Div(taker.left, best.price), m.stockPrec) + Unit(m.stockPrec) == Unit(m.stockPrec);
    }
  }

  /** A market buy never spends more than its amount, and ends with no asks left or with less money than
    one unit of stock costs at the best remaining price. */
  lemma MarketBuyResidue(assets: Assets, m: Market, x: Match)
    requires MatchOk(assets, m, x) && Priced(x.makers) && SpendsBudget(x.taker)
    ensures var y := Execute(assets, m, x);
      && 0.0 <= SumMoney(NewDeals(x, y)) && SumMoney(NewDeals(x, y)) + y.taker.left == x.taker.left
        && y.taker.left >= 0.0
      && (y.makers == [] || (y.makers[0].price > 0.0 && y.taker.left < Mul(y.makers[0].price, Unit(m.stockPrec))))
  {
    hide Mul, Execute, FillBalance, Covered, Sound, Budget, MatchEffect, TradeAmount, LimitOk, FeesOk, DealOf, OnGrid;
    var y := Execute(assets, m, x);
    ExecuteKeeps(assets, m, x);
    ExecuteUsesBestMakers(assets, m, x);
    DealPrices(m, x, y);
    SumMoneyNonNeg(NewDeals(x, y), x.makers);
    TakerLeft(m, y.taker);
    if y.makers != [] {
      assert Resting(m, y.makers[0], ASK);
      ResidueBelowUnit(m, y.taker, y.makers[0]);
    }
  }

  lemma {:induction false} SumMoneyNonNeg(deals: seq<Deal>, makers: seq<Order>)
    requires |deals| <= |makers| && forall j | 0 <= j < |deals| ::
      deals[j].amount > 0.0 && deals[j].price == makers[j].price && makers[j].price > 0.0
    ensures SumMoney(deals) >= 0.0
  {
    hide Mul;
    if deals != [] {
      MulPos(deals[0].price, deals[0].amount);
      SumMoneyNonNeg(deals[1..], makers[1..]);
    }
  }

  /** What was taken is all of a maker before the best remaining one, and nothing of a maker after it. */
  lemma TakenShape(m: Market, taker: Order, makers: seq<Order>, lastDeal: nat, d: seq<Deal>, rest: seq<Order>, i: nat)
    requires BestFirst(m, taker, makers, lastDeal, d, rest) && i < |makers|
    ensures var p := |makers| - |rest|;
      && (i < p ==> Taken(makers, d)[i] == makers[i].left)
      && (i > p ==> Taken(makers, d)[i] == 0.0)
      && (rest != [] ==> 0 <= p < |makers| && rest[0].price == makers[p].price)
  {
    hide Mul, DealOf, OnGrid, FeeOf, TooExpensive;
  }

  /** Every maker was used up to the price of the best remaining one, and none beyond it. */
  lemma RemainingPivot(assets: Assets, m: Market, x: Match, y: Match, a: seq<Dec>)
    requires MatchOk(assets, m, x) && UsesBestMakers(m, x, y) && Allocation(x.makers, a) && x.taker.side == BID
    ensures |Taken(x.makers, NewDeals(x, y))| == |a| == |x.makers|
    ensures y.makers != [] ==> WorseOff(x.makers, Taken(x.makers, NewDeals(x, y)), a, y.makers[0].price)
    ensures y.makers == [] ==> Sum(a) <= Sum(Taken(x.makers, NewDeals(x, y)))
  {
    hide Mul, DealOf, OnGrid, MatchOk, BestFirst, NewDeals;
    MatchSide(assets, m, x);
    var d := NewDeals(x, y);
    var g := Taken(x.makers, d);
    var p := |x.makers| - |y.makers|;
    forall i | 0 <= i < |a|
      ensures y.makers == [] ==> a[i] <= g[i]
      ensures y.makers != [] ==>
        && (x.makers[i].price < y.makers[0].price ==> a[i] <= g[i])
        && (x.makers[i].price > y.makers[0].price ==> a[i] >= g[i])
    {
      TakenShape(m, x.taker, x.makers, x.lastDeal, d, y.makers, i);
      if y.makers != [] {
        if i <= p { SortedPrices(m, x.makers, ASK, i, p); } else { SortedPrices(m, x.makers, ASK, p, i); }
      }
    }
    if y.makers == [] { SumMono(a, g); }
  }

  lemma TakenOnGrid(m: Market, x: Match, y: Match)
    requires UsesBestMakers(m, x, y)
    ensures OnGrid(SumAmount(NewDeals(x, y)), m.stockPrec)
    ensures Sum(Taken(x.makers, NewDeals(x, y))) == SumAmount(NewDeals(x, y))
    ensures Cost(x.makers, Taken(x.makers, NewDeals(x, y))) == SumMoney(NewDeals(x, y))
  {
    hide Mul;
    DealPrices(m, x, y);
    TakenTotals(x.makers, NewDeals(x, y));
    OnGridZero(m.stockPrec);
    SumOnGrid(Taken(x.makers, NewDeals(x, y)), m.stockPrec);
  }

  /** No way to spend the budget on whole units of stock buys more than a market buy does. */
  lemma MarketBuyMost(assets: Assets, m: Market, x: Match, a: seq<Dec>)
    requires MatchOk(assets, m, x) && Priced(x.makers) && SpendsBudget(x.taker)
    requires Allocation(x.makers, a) && (forall i | 0 <= i < |a| :: OnGrid(a[i], m.stockPrec))
    requires Cost(x.makers, a) <= x.taker.left
    ensures Sum(a) <= SumAmount(NewDeals(x, Execute(assets, m, x)))
  {
    hide Mul, Execute, MatchOk, UsesBestMakers, OnGrid, Taken, NewDeals, Sum, Cost, SumAmount, SumMoney, WorseOff;
    var y := Execute(assets, m, x);
    var g := Taken(x.makers, NewDeals(x, y));
    ExecuteUsesBestMakers(assets, m, x);
    MarketBuyResidue(assets, m, x);
    TakenOnGrid(m, x, y);
    SumOnGrid(a, m.stockPrec);
    RemainingPivot(assets, m, x, y, a);
    if y.makers != [] && Sum(a) > Sum(g) {
      var pivot := y.makers[0].price;
      ExchangeCost(x.makers, g, a, pivot);
      GridGap(Sum(g), Sum(a), m.stockPrec);
      MulMono(pivot, pivot, Unit(m.stockPrec), Sum(a) - Sum(g));
    }
  }
}
