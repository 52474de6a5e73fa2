/** Over any run an open order records exactly the sum of its deals, and what it was charged in fees lags the
  recorded fees by less than one unit for each deal. */
module Records {
  import opened Decimal
  import opened Balances
  import opened Orders
  import opened Matching
  import opened MatchingProofs
  import opened Execution
  import opened EngineSpec
  import opened EngineInvariant
  import opened EngineRuns

  /** What deals add up to for one order. `asked` and `bought` count its deals as the ask and as the bid; `charged`
    is what the ledger took for the fees; `slack` is one unit of the money for each deal as the ask. */
  datatype Tally = Tally(stock: Dec, money: Dec, fee: Dec, asked: nat, bought: nat, charged: Dec, slack: Dec)

  const NONE: Tally := Tally(0.0, 0.0, 0.0, 0, 0, 0.0, 0.0)

  function PrecOf(assets: Assets, asset: Asset): nat {
    if asset in assets then assets[asset].precSave else 0
  }

  predicate Involves(d: Deal, id: OrderId) {
    d.ask == id || d.bid == id
  }

  function Count(assets: Assets, t: Tally, d: Deal, id: OrderId): Tally {
    if d.ask == id then
      Tally(t.stock + d.amount, t.money + Mul(d.price, d.amount), t.fee + d.askFee, t.asked + 1, t.bought,
            t.charged + RoundUp(d.askFee, PrecOf(assets, d.money)), t.slack + Unit(PrecOf(assets, d.money)))
    else if d.bid == id then
      Tally(t.stock + d.amount, t.money + Mul(d.price, d.amount), t.fee + d.bidFee, t.asked, t.bought + 1,
            t.charged + RoundUp(d.bidFee, PrecOf(assets, d.stock)), t.slack)
    else t
  }

  ghost function TallyOf(assets: Assets, deals: seq<Deal>, id: OrderId): Tally {
    if deals == [] then NONE
    else Count(assets, TallyOf(assets, deals[..|deals| - 1], id), deals[|deals| - 1], id)
  }

  /** The record of an order is the sum of its deals. */
  ghost predicate Recorded(assets: Assets, o: Order, deals: seq<Deal>) {
    var t := TallyOf(assets, deals, o.id);
    && o.dealStock == t.stock && o.dealMoney == t.money && o.dealFee == t.fee
    && (if o.side == ASK then t.bought == 0 else t.asked == 0)
  }

  ghost predicate SideRecorded(assets: Assets, s: seq<Order>, deals: seq<Deal>) {
    forall o | o in s :: Recorded(assets, o, deals)
  }

  /** The fees of bids are whole numbers of units, and no deal knows an order that is yet to come. */
  ghost predicate DealsOk(assets: Assets, deals: seq<Deal>, last: nat) {
    forall d | d in deals :: d.ask <= last && d.bid <= last && RoundUp(d.bidFee, PrecOf(assets, d.stock)) == d.bidFee
  }

  ghost predicate StateRecorded(c: Config, st: State, deals: seq<Deal>) {
    && DealsOk(c.assets, deals, st.lastOrder)
    && forall i, side | 0 <= i < |st.books| :: SideRecorded(c.assets, SideOf(st.books[i], side), deals)
  }

  lemma TallyNext(assets: Assets, deals: seq<Deal>, d: Deal, id: OrderId)
    ensures TallyOf(assets, deals + [d], id) == Count(assets, TallyOf(assets, deals, id), d, id)
  {
    hide Count;
    assert (deals + [d])[..|deals|] == deals;
  }

  /** Deals of other orders do not count. */
  lemma {:induction false} TallyApart(assets: Assets, deals: seq<Deal>, more: seq<Deal>, id: OrderId)
    requires forall d | d in more :: !Involves(d, id)
    ensures TallyOf(assets, deals + more, id) == TallyOf(assets, deals, id)
    decreases |more|
  {
    if more == [] {
      assert deals + more == deals;
    } else {
      var front, d := more[..|more| - 1], more[|more| - 1];
      assert d in more && !Involves(d, id);
      TallyApart(assets, deals, front, id);
      assert deals + more == (deals + front) + [d];
      TallyNext(assets, deals + front, d, id);
    }
  }

  // ----- One trade

  /** The next deal of a match. */
  function NextDeal(m: Market, x: Match): Deal
    requires x.makers != [] && x.makers[0].price > 0.0
  {
    DealOf(x.lastDeal + 1, m, x.taker, x.makers[0], TradeAmount(m, x.taker, x.makers[0]))
  }

  /** Both parties of a deal record it. */
  lemma DealRecorded(assets: Assets, m: Market, deals: seq<Deal>, d: Deal, taker: Order, maker: Order)
    requires d == DealOf(d.id, m, taker, maker, d.amount) && taker.side == Opposite(maker.side) && taker.id != maker.id
    requires Recorded(assets, taker, deals) && Recorded(assets, maker, deals)
    ensures Recorded(assets, TakerAfter(taker, maker.price, d.amount), deals + [d])
    ensures Recorded(assets, MakerAfter(maker, d.amount), deals + [d])
  {
    hide Mul, RoundUp, FeeOf;
    TallyNext(assets, deals, d, taker.id);
    TallyNext(assets, deals, d, maker.id);
  }

  lemma BidFeeWhole(assets: Assets, m: Market, x: Match)
    requires MatchOk(assets, m, x) && Priced(x.makers) && !Stops(m, x)
    ensures var d := NextDeal(m, x); RoundUp(d.bidFee, PrecOf(assets, d.stock)) == d.bidFee
  {
    hide Mul, Div, TradeAmount, RoundUp, OnGrid, FeeOf, Sound, Covered;
    TradeAmountOk(assets, m, x);
    assert Resting(m, x.makers[0], Opposite(x.taker.side));
    FeeLag(EngineConfig(assets, m), m, NextDeal(m, x), x.taker, x.makers[0]);
  }

  function EngineConfig(assets: Assets, m: Market): Config {
    Config(assets, [m])
  }

  /** The orders of a match are those of a side, and a taker with an id of its own. */
  ghost predicate Between(x: Match, d: Deal) {
    forall id | Involves(d, id) :: id == x.taker.id || exists o | o in x.makers :: o.id == id
  }

  ghost predicate MatchRecorded(assets: Assets, x: Match, prior: seq<Deal>) {
    && SideRecorded(assets, x.makers, prior + x.deals) && Recorded(assets, x.taker, prior + x.deals)
    && forall o | o in x.makers :: o.id != x.taker.id
  }

  lemma FillRecords(assets: Assets, m: Market, x: Match, prior: seq<Deal>)
    requires MatchOk(assets, m, x) && Priced(x.makers) && !Stops(m, x) && MatchRecorded(assets, x, prior)
    ensures var y, d := Fill(assets, m, x), NextDeal(m, x);
      && y.deals == x.deals + [d] && MatchRecorded(assets, y, prior) && y.taker.id == x.taker.id && Between(x, d)
      && (forall o | o in y.makers :: exists k | k in x.makers :: k.id == o.id)
  {
    hide Mul, Div, TradeAmount, FillBalance, Recorded, FeeOf, Sound, Covered, TakerOk, LimitOk;
    var y, d := Fill(assets, m, x), NextDeal(m, x);
    var maker := x.makers[0];
    assert Resting(m, maker, Opposite(x.taker.side));
    assert prior + y.deals == (prior + x.deals) + [d];
    DealRecorded(assets, m, prior + x.deals, d, x.taker, maker);
    DistinctIds(x.makers);
    forall o | o in x.makers[1..] ensures o in x.makers && Recorded(assets, o, prior + y.deals) {
      var j :| 0 <= j < |x.makers[1..]| && x.makers[1..][j] == o;
      assert x.makers[j + 1] == o && o.id != maker.id && o.id != x.taker.id;
      StillRecorded(assets, o, prior + x.deals, [d]);
    }
    assert maker in x.makers;
  }

  lemma StillRecorded(assets: Assets, o: Order, deals: seq<Deal>, more: seq<Deal>)
    requires Recorded(assets, o, deals) && forall d | d in more :: !Involves(d, o.id)
    ensures Recorded(assets, o, deals + more)
  {
    TallyApart(assets, deals, more, o.id);
  }

  // ----- A whole match

  lemma {:induction false} ExecuteRecords(assets: Assets, m: Market, x: Match, prior: seq<Deal>)
    requires MatchOk(assets, m, x) && Priced(x.makers) && MatchRecorded(assets, x, prior)
    ensures var y := Execute(assets, m, x);
      && MatchRecorded(assets, y, prior) && y.taker.id == x.taker.id && x.deals <= y.deals
      && (forall d | d in y.deals[|x.deals|..] ::
        Between(x, d) && RoundUp(d.bidFee, PrecOf(assets, d.stock)) == d.bidFee)
    decreases |x.makers|
  {
    hide Mul, Div, Fill, MatchOk, MatchRecorded, NextDeal, RoundUp, Between, TradeAmount;
    if !Stops(m, x) {
      FillKeeps(assets, m, x);
      FillRecords(assets, m, x, prior);
      BidFeeWhole(assets, m, x);
      var y := Fill(assets, m, x);
      MakersPriced(assets, m, y);
      FillShape(assets, m, x);
      if |y.makers| < |x.makers| {
        ExecuteRecords(assets, m, y, prior);
        var z := Execute(assets, m, y);
        assert z.deals[|x.deals|] == y.deals[|x.deals|]
          && z.deals[|x.deals|..] == [NextDeal(m, x)] + z.deals[|y.deals|..];
        forall d | d in z.deals[|y.deals|..] ensures Between(x, d) {
          BetweenWider(x, y, d);
        }
      } else {
        assert y.deals[|x.deals|..] == [NextDeal(m, x)];
      }
    } else {
      assert x.deals[|x.deals|..] == [];
    }
  }

  lemma MakersPriced(assets: Assets, m: Market, x: Match)
    requires MatchOk(assets, m, x)
    ensures Priced(x.makers)
  {
    PricedSide(m, x.makers, Opposite(x.taker.side));
  }

  lemma BetweenWider(x: Match, y: Match, d: Deal)
    requires Between(y, d) && y.taker.id == x.taker.id
    requires forall o | o in y.makers :: exists k | k in x.makers :: k.id == o.id
    ensures Between(x, d)
  {
    forall id | Involves(d, id) && id != x.taker.id ensures exists o | o in x.makers :: o.id == id {
      var o :| o in y.makers && o.id == id;
    }
  }

  /** A match of a new order keeps all records, also those of the orders that it does not touch. */
  lemma MatchRecords(c: Config, st: State, i: nat, taker: Order, deals: seq<Deal>)
    requires Inv(c, st) && i < |st.books| && TakerOk(c.markets[i], taker) && taker.id == st.lastOrder + 1
    requires Available(st, taker.user, GiveAsset(c.markets[i], taker.side)) >= Budget(taker)
    requires taker.dealStock == taker.dealMoney == taker.dealFee == 0.0 && StateRecorded(c, st, deals)
    ensures Priced(StartMatch(st, i, taker).makers)
    ensures var y := Execute(c.assets, c.markets[i], StartMatch(st, i, taker));
      && StateRecorded(c, AfterMatch(st, i, y), deals + y.deals) && Recorded(c.assets, y.taker, deals + y.deals)
      && y.taker.id == taker.id
  {
    hide Mul, Execute, MatchOk, TakerOk, Budget, Recorded, RoundUp, Sound, FrozenIsLocked, BookOk, Between;
    MatchStarts(c, st, i, taker);
    var x, side := StartMatch(st, i, taker), Opposite(taker.side);
    NewRecorded(c, st, taker, deals);
    assert deals + x.deals == deals;
    assert SideRecorded(c.assets, SideOf(st.books[i], side), deals);
    FreshOrder(st.books, st.lastOrder, i, side, taker.id);
    ExecuteRecords(c.assets, c.markets[i], x, deals);
    var y := Execute(c.assets, c.markets[i], x);
    assert y.deals[|x.deals|..] == y.deals;
    var st' := AfterMatch(st, i, y);
    NewDealsKnown(c, st, i, x, y.deals);
    assert y.taker.side == taker.side by { TakerSide(c, st, i, taker); }
    forall j, t | 0 <= j < |st'.books| ensures SideRecorded(c.assets, SideOf(st'.books[j], t), deals + y.deals) {
      if j == i && t == side {
        assert SideOf(st'.books[j], t) == y.makers;
      } else {
        assert SideOf(st'.books[j], t) == SideOf(st.books[j], t)
          && SideRecorded(c.assets, SideOf(st.books[j], t), deals);
        OthersRecorded(c, st, i, x, j, t, deals, y.deals);
      }
    }
  }

  lemma TakerSide(c: Config, st: State, i: nat, taker: Order)
    requires Inv(c, st) && i < |st.books| && TakerOk(c.markets[i], taker) && taker.id == st.lastOrder + 1
    requires Available(st, taker.user, GiveAsset(c.markets[i], taker.side)) >= Budget(taker)
    ensures Priced(StartMatch(st, i, taker).makers)
    ensures Execute(c.assets, c.markets[i], StartMatch(st, i, taker)).taker.side == taker.side
  {
    hide Execute, Inv, TakerOk, Budget, MatchOk;
    MatchKeepsInv(c, st, i, taker);
  }

  /** An order that is yet to come has no deals. */
  lemma NewRecorded(c: Config, st: State, taker: Order, deals: seq<Deal>)
    requires StateRecorded(c, st, deals) && taker.id == st.lastOrder + 1
    requires taker.dealStock == taker.dealMoney == taker.dealFee == 0.0
    ensures Recorded(c.assets, taker, deals)
  {
    hide RoundUp;
    forall d | d in deals ensures !Involves(d, taker.id) {}
    TallyApart(c.assets, [], deals, taker.id);
    assert [] + deals == deals;
  }

  lemma NewDealsKnown(c: Config, st: State, i: nat, x: Match, more: seq<Deal>)
    requires IdsOk(st.books, st.lastOrder) && i < |st.books| && x.taker.id == st.lastOrder + 1
    requires x.makers == SideOf(st.books[i], Opposite(x.taker.side))
    requires forall d | d in more :: Between(x, d) && RoundUp(d.bidFee, PrecOf(c.assets, d.stock)) == d.bidFee
    ensures DealsOk(c.assets, more, x.taker.id)
  {
    hide RoundUp;
    forall d | d in more ensures d.ask <= x.taker.id && d.bid <= x.taker.id {
      assert Involves(d, d.ask) && Involves(d, d.bid);
      forall o | o in x.makers ensures o.id <= st.lastOrder {
        assert Has(st.books, i, Opposite(x.taker.side), o.id);
      }
    }
  }

  /** The orders of another side have no part in a match. */
  lemma OthersRecorded(c: Config, st: State, i: nat, x: Match, j: nat, t: Side, deals: seq<Deal>, more: seq<Deal>)
    requires IdsOk(st.books, st.lastOrder) && i < |st.books| && j < |st.books| && x.taker.id == st.lastOrder + 1
    requires x.makers == SideOf(st.books[i], Opposite(x.taker.side)) && (j != i || t != Opposite(x.taker.side))
    requires SideRecorded(c.assets, SideOf(st.books[j], t), deals) && forall d | d in more :: Between(x, d)
    ensures SideRecorded(c.assets, SideOf(st.books[j], t), deals + more)
  {
    hide Recorded;
    forall o | o in SideOf(st.books[j], t) ensures Recorded(c.assets, o, deals + more) {
      assert Has(st.books, j, t, o.id);
      forall k | k in x.makers ensures k.id != o.id {
        assert Has(st.books, i, Opposite(x.taker.side), k.id);
      }
      StillRecorded(c.assets, o, deals, more);
    }
  }

  // ----- Commands

  lemma PutRecords(c: Config, st: State, i: nat, o: Order, deals: seq<Deal>)
    requires i < |c.markets| == |st.books| && StateRecorded(c, st, deals) && Recorded(c.assets, o, deals)
    ensures StateRecorded(c, OrderPut(c, st, i, o), deals)
  {
    hide Mul, Move, RoundUp, TallyOf;
    var st', o' := OrderPut(c, st, i, o), o.(freeze := Give(o.side, o.price, o.left));
    InsertElements(SideOf(st.books[i], o.side), o');
    forall j, t | 0 <= j < |st'.books| ensures SideRecorded(c.assets, SideOf(st'.books[j], t), deals) {
      assert SideRecorded(c.assets, SideOf(st.books[j], t), deals);
      if j != i || t != o.side { assert SideOf(st'.books[j], t) == SideOf(st.books[j], t); }
    }
  }

  lemma CancelRecords(c: Config, st: State, i: nat, user: UserId, id: OrderId, source: Source, deals: seq<Deal>)
    requires Inv(c, st) && i < |c.markets| && StateRecorded(c, st, deals)
    ensures StateRecorded(c, Cancel(c, st, i, user, id, source).state, deals)
  {
    hide Mul, Release, RoundUp, Recorded, Lookup, Sound, IdsOk, FrozenIsLocked, LimitOk;
    var found := FindOrder(st.books[i], id);
    var st' := Cancel(c, st, i, user, id, source).state;
    if st' != st {
      var o := found[0];
      assert BookOk(c.markets[i], st.books[i]);
      RemoveElements(SideOf(st.books[i], o.side), o.id);
      forall j, t | 0 <= j < |st'.books| ensures SideRecorded(c.assets, SideOf(st'.books[j], t), deals) {
        assert SideRecorded(c.assets, SideOf(st.books[j], t), deals);
        if j != i || t != o.side { assert SideOf(st'.books[j], t) == SideOf(st.books[j], t); }
      }
    }
  }

  lemma LimitRecords(c: Config, st: State, i: nat, user: UserId, side: Side, amount: Dec, price: Dec, takerFee: Dec,
          makerFee: Dec, deals: seq<Deal>)
    requires Inv(c, st) && i < |c.markets| == |st.books| && BooksPriced(st) && StateRecorded(c, st, deals)
    requires var m := c.markets[i];
      && amount > 0.0 && price > 0.0 && OnGrid(amount, m.stockPrec) && OnGrid(price, m.moneyPrec)
      && FeeArgument(takerFee) && FeeArgument(makerFee) && OnGrid(takerFee, m.feePrec) && OnGrid(makerFee, m.feePrec)
    ensures var r := PutLimit(c, st, i, user, side, amount, price, takerFee, makerFee);
      StateRecorded(c, r.state, deals + r.deals)
  {
    hide Mul, Inv, Execute, TakerOk, LimitOk, OrderPut, Give, Budget, AfterMatch, OnGrid, StateRecorded, Recorded;
    var m := c.markets[i];
    var taker := NewOrder(st.lastOrder + 1, LIMIT, side, user, price, amount, takerFee, makerFee);
    NewOrderOk(m, taker.id, side, user, price, amount, takerFee, makerFee);
    assert deals + [] == deals;
    if Available(st, user, GiveAsset(m, side)) >= Give(side, price, amount) && amount >= m.minAmount {
      MatchRecords(c, st, i, taker, deals);
      var y := Execute(c.assets, m, StartMatch(st, i, taker));
      AfterShape(c, st, i, y);
      if y.taker.left != 0.0 {
        PutRecords(c, AfterMatch(st, i, y), i, y.taker, deals + y.deals);
      }
    }
  }

  lemma AfterShape(c: Config, st: State, i: nat, y: Match)
    requires i < |c.markets| == |st.books|
    ensures |AfterMatch(st, i, y).books| == |c.markets|
  {
  }

  lemma MarketRecords(c: Config, st: State, i: nat, user: UserId, side: Side, amount: Dec, takerFee: Dec,
          deals: seq<Deal>)
    requires Inv(c, st) && i < |c.markets| == |st.books| && BooksPriced(st) && StateRecorded(c, st, deals)
    requires amount > 0.0 && OnGrid(amount, c.markets[i].stockPrec) && FeeArgument(takerFee)
      && OnGrid(takerFee, c.markets[i].feePrec)
    ensures var r := PutMarket(c, st, i, user, side, amount, takerFee);
      StateRecorded(c, r.state, deals + r.deals)
  {
    hide Mul, Inv, Execute, TakerOk, Budget, AfterMatch, OnGrid, StateRecorded, Recorded;
    var m := c.markets[i];
    var taker := NewOrder(st.lastOrder + 1, MARKET, side, user, 0.0, amount, takerFee, 0.0);
    NewMarketOrderOk(m, taker.id, side, user, amount, takerFee);
    assert deals + [] == deals;
    if Available(st, user, GiveAsset(m, side)) >= amount {
      MatchRecords(c, st, i, taker, deals);
    }
  }

  lemma StepRecords(c: Config, st: State, cmd: Command, source: Source, deals: seq<Deal>)
    requires Inv(c, st) && BooksPriced(st) && |c.markets| == |st.books| && Aligned(c, cmd)
      && StateRecorded(c, st, deals)
    ensures var r := Step(c, st, cmd, source); StateRecorded(c, r.state, deals + r.deals)
  {
    hide Inv, PutLimit, PutMarket, Cancel, Truncate, OnGrid, SideRecorded, DealsOk, Add, Sub;
    assert deals + [] == deals;
    match cmd
    case UpdateBalance(user, asset, business, businessId, change) =>
    case LimitOrder(user, i, side, amount, price, takerFee, makerFee) =>
      if i < |c.markets| {
        var m := c.markets[i];
        ParseOnGrid(amount, m.stockPrec);
        ParseOnGrid(price, m.moneyPrec);
        ParseOnGrid(takerFee, m.feePrec);
        ParseOnGrid(makerFee, m.feePrec);
        if Parse(amount, m.stockPrec) > 0.0 && Parse(price, m.moneyPrec) > 0.0
           && FeeArgument(Parse(takerFee, m.feePrec)) && FeeArgument(Parse(makerFee, m.feePrec)) {
          LimitRecords(c, st, i, user, side, Parse(amount, m.stockPrec), Parse(price, m.moneyPrec),
                       Parse(takerFee, m.feePrec), Parse(makerFee, m.feePrec), deals);
        }
      }
    case MarketOrder(user, i, side, amount, takerFee) =>
      if i < |c.markets| {
        var m := c.markets[i];
        ParseOnGrid(amount, m.stockPrec);
        ParseOnGrid(takerFee, m.feePrec);
        if Parse(amount, m.stockPrec) > 0.0 && FeeArgument(Parse(takerFee, m.feePrec)) {
          MarketRecords(c, st, i, user, side, Parse(amount, m.stockPrec), Parse(takerFee, m.feePrec), deals);
        }
      }
    case CancelOrder(user, i, id) =>
      if i < |c.markets| {
        CancelRecords(c, st, i, user, id, source, deals);
        CancelDeals(c, st, i, user, id, source);
      }
  }

  lemma CancelDeals(c: Config, st: State, i: nat, user: UserId, id: OrderId, source: Source)
    requires i < |c.markets| == |st.books|
    ensures Cancel(c, st, i, user, id, source).deals == []
  {
  }

  // ----- Runs

  lemma {:induction false} RunRecords(c: Config, st: State, events: seq<Event>, deals: seq<Deal>)
    requires Inv(c, st) && AllAligned(c, events) && StateRecorded(c, st, deals)
    ensures var r := Run(c, st, events); StateRecorded(c, r.state, deals + r.deals)
    decreases |events|
  {
    hide Inv, Step, Aligned, StateRecorded, Conserves;
    if events == [] {
      assert deals + [] == deals;
    } else {
      var r := Happen(c, st, events[0]);
      var rest := Run(c, r.state, events[1..]);
      HappenRecords(c, st, events[0], deals);
      RunRecords(c, r.state, events[1..], deals + r.deals);
      assert deals + (r.deals + rest.deals) == (deals + r.deals) + rest.deals;
    }
  }

  lemma HappenRecords(c: Config, st: State, e: Event, deals: seq<Deal>)
    requires Inv(c, st) && (e.Request? ==> Aligned(c, e.cmd)) && StateRecorded(c, st, deals)
    ensures var r := Happen(c, st, e); StateRecorded(c, r.state, deals + r.deals)
  {
    hide Inv, Step, Aligned, SideRecorded, DealsOk, Conserves;
    assert deals + [] == deals;
    if e.Request? {
      InvShape(c, st);
      StepRecords(c, st, e.cmd, LIVE, deals);
    }
  }

  /** What was charged is at least what was recorded; it is exactly that for deals as the bid, and less than one
    unit more for each deal as the ask. */
  lemma {:induction false} ChargeLag(assets: Assets, deals: seq<Deal>, last: nat, id: OrderId)
    requires DealsOk(assets, deals, last)
    ensures var t := TallyOf(assets, deals, id);
      && t.fee <= t.charged <= t.fee + t.slack
      && (t.asked == 0 ==> t.charged == t.fee && t.slack == 0.0)
      && (t.asked > 0 ==> t.charged < t.fee + t.slack)
  {
    hide Mul, RoundUp, Unit;
    if deals != [] {
      var front, d := deals[..|deals| - 1], deals[|deals| - 1];
      assert d in deals && forall e | e in front :: e in deals;
      ChargeLag(assets, front, last, id);
      RoundUpIsCeiling(d.askFee, PrecOf(assets, d.money));
    }
  }

  /** The life of an order. In every reachable state each open order has recorded exactly the stock, the money and
    the fees of all its deals, and what the ledger charged it for them is what it recorded if it is a bid, and
    lags it by less than one unit of the money for each deal if it is an ask. */
  lemma OrderLife(c: Config, events: seq<Event>, i: nat, side: Side, o: Order)
    requires ConfigOk(c) && AllAligned(c, events)
    requires i < |Reached(c, events).books| && o in SideOf(Reached(c, events).books[i], side)
    ensures Inv(c, InitialState(c))
    ensures var t := TallyOf(c.assets, Run(c, InitialState(c), events).deals, o.id);
      && o.dealStock == t.stock && o.dealMoney == t.money && o.dealFee == t.fee
      && (o.side == BID ==> t.charged == o.dealFee)
      && (o.side == ASK ==> o.dealFee <= t.charged && (t.asked > 0 ==> t.charged < o.dealFee + t.slack))
  {
    hide Inv, Run, TallyOf, RoundUp;
    InitialInv(c);
    var deals := Run(c, InitialState(c), events).deals;
    NothingRecorded(c);
    RunRecords(c, InitialState(c), events, []);
    assert [] + deals == deals;
    var st := Reached(c, events);
    assert SideRecorded(c.assets, SideOf(st.books[i], side), deals);
    ChargeLag(c.assets, deals, st.lastOrder, o.id);
  }

  lemma NothingRecorded(c: Config)
    ensures StateRecorded(c, InitialState(c), [])
  {
  }
}
