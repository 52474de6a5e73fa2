/** Replaying the operation log (`me_load.c`) against the live run that wrote it.

  Nothing that an engine decides depends on the fee that an order has recorded, so a restored engine
  whose orders differ only there behaves like the live one. */
module Replay {
  import opened Decimal
  import opened Balances
  import opened Orders
  import opened Matching
  import opened MatchingProofs
  import opened Execution
  import opened EngineSpec
  import opened EngineInvariant
  import opened EngineRuns

  predicate Alike(a: Order, b: Order) {
    a == b.(dealFee := a.dealFee)
  }

  ghost predicate SidesAlike(s: seq<Order>, t: seq<Order>) {
    |s| == |t| && forall i | 0 <= i < |s| :: Alike(s[i], t[i])
  }

  ghost predicate BooksAlike(a: seq<Book>, b: seq<Book>) {
    |a| == |b| && forall i | 0 <= i < |a| :: SidesAlike(a[i].asks, b[i].asks) && SidesAlike(a[i].bids, b[i].bids)
  }

  /** Equal up to recorded fees and the table of update keys. */
  ghost predicate StatesAlike(a: State, b: State) {
    a.balance == b.balance && a.lastOrder == b.lastOrder && a.lastDeal == b.lastDeal && BooksAlike(a.books, b.books)
  }

  lemma AlikeSymmetric(a: State, b: State)
    requires StatesAlike(a, b)
    ensures StatesAlike(b, a)
  {
  }

  lemma AlikeTransitive(a: State, b: State, c: State)
    requires StatesAlike(a, b) && StatesAlike(b, c)
    ensures StatesAlike(a, c)
  {
    forall i | 0 <= i < |a.books|
      ensures SidesAlike(a.books[i].asks, c.books[i].asks) && SidesAlike(a.books[i].bids, c.books[i].bids)
    {
      SidesTransitive(a.books[i].asks, b.books[i].asks, c.books[i].asks);
      SidesTransitive(a.books[i].bids, b.books[i].bids, c.books[i].bids);
    }
  }

  lemma SidesTransitive(s: seq<Order>, t: seq<Order>, u: seq<Order>)
    requires SidesAlike(s, t) && SidesAlike(t, u)
    ensures SidesAlike(s, u)
  {
    forall i | 0 <= i < |s| ensures Alike(s[i], u[i]) {
      assert Alike(s[i], t[i]) && Alike(t[i], u[i]);
    }
  }

  ghost predicate MatchesAlike(x: Match, y: Match) {
    && x.balance == y.balance && x.lastDeal == y.lastDeal && x.deals == y.deals
    && Alike(x.taker, y.taker) && SidesAlike(x.makers, y.makers)
  }

  lemma FillAlike(assets: Assets, m: Market, x: Match, y: Match)
    requires MatchesAlike(x, y) && Priced(x.makers) && Priced(y.makers) && x.makers != [] && y.makers != []
    ensures MatchesAlike(Fill(assets, m, x), Fill(assets, m, y))
    ensures |Fill(assets, m, x).makers| == |Fill(assets, m, y).makers|
  {
    hide Mul, Div, Settle, Truncate, FeeOf, Move;
    assert x.makers[0] in x.makers && y.makers[0] in y.makers && Alike(x.makers[0], y.makers[0]);
    var amount := TradeAmount(m, x.taker, x.makers[0]);
    assert amount == TradeAmount(m, y.taker, y.makers[0]);
    BalanceAlike(assets, m, x.balance, x.taker, y.taker, x.makers[0], y.makers[0], amount);
    assert Alike(MakerAfter(x.makers[0], amount), MakerAfter(y.makers[0], amount));
    MakersAlike(x.makers, y.makers, amount);
  }

  lemma MakersAlike(s: seq<Order>, t: seq<Order>, amount: Dec)
    requires SidesAlike(s, t) && s != []
    ensures SidesAlike(MakersAfter(s, amount), MakersAfter(t, amount))
  {
    hide Mul, FeeOf, Give;
    assert Alike(s[0], t[0]);
    forall i | 0 < i < |s| ensures Alike(s[i], t[i]) {}
  }

  lemma BalanceAlike(assets: Assets, m: Market, b: Balance, t: Order, t': Order, k: Order, k': Order, amount: Dec)
    requires Alike(t, t') && Alike(k, k')
    ensures FillBalance(assets, m, b, t, k, amount) == FillBalance(assets, m, b, t', k', amount)
  {
    hide Mul, Settle, FeeOf, Move, Give;
  }

  lemma {:induction false} ExecuteAlike(assets: Assets, m: Market, x: Match, y: Match)
    requires MatchesAlike(x, y) && Priced(x.makers) && Priced(y.makers)
    requires MatchOk(assets, m, x)
    ensures MatchesAlike(Execute(assets, m, x), Execute(assets, m, y))
    decreases |x.makers|
  {
    hide Mul, Div, Fill, Truncate, MatchOk, DealOf;
    if x.makers != [] {
      assert Alike(x.makers[0], y.makers[0]);
    }
    assert Stops(m, x) == Stops(m, y);
    if !Stops(m, x) {
      FillAlike(assets, m, x, y);
      FillKeeps(assets, m, x);
      var x', y' := Fill(assets, m, x), Fill(assets, m, y);
      if |x'.makers| < |x.makers| {
        StillPriced(assets, m, x', y');
        ExecuteAlike(assets, m, x', y');
      } else {
        FillShape(assets, m, x);
      }
    }
  }

  lemma StillPriced(assets: Assets, m: Market, x: Match, y: Match)
    requires MatchesAlike(x, y) && MatchOk(assets, m, x)
    ensures Priced(x.makers) && Priced(y.makers)
  {
    hide Mul, Sound, Covered, TakerOk;
    PricedSide(m, x.makers, Opposite(x.taker.side));
    forall o | o in y.makers ensures o.price > 0.0 {
      var i :| 0 <= i < |y.makers| && y.makers[i] == o;
      assert Alike(x.makers[i], y.makers[i]);
      assert x.makers[i] in x.makers;
    }
  }

  // ----- Changes of a side

  lemma {:induction false} InsertAlike(s: seq<Order>, t: seq<Order>, a: Order, b: Order)
    requires SidesAlike(s, t) && Alike(a, b)
    ensures SidesAlike(Insert(s, a), Insert(t, b))
  {
    if s != [] {
      assert Alike(s[0], t[0]);
      if Precedes(s[0], a) {
        TailAlike(s, t);
        InsertAlike(s[1..], t[1..], a, b);
      }
    }
  }

  lemma TailAlike(s: seq<Order>, t: seq<Order>)
    requires SidesAlike(s, t) && s != []
    ensures SidesAlike(s[1..], t[1..])
  {
  }

  lemma {:induction false} RemoveAlike(s: seq<Order>, t: seq<Order>, id: OrderId)
    requires SidesAlike(s, t)
    ensures SidesAlike(Remove(s, id), Remove(t, id))
  {
    if s != [] {
      assert Alike(s[0], t[0]);
      TailAlike(s, t);
      RemoveAlike(s[1..], t[1..], id);
    }
  }

  lemma {:induction false} LookupAlike(s: seq<Order>, t: seq<Order>, id: OrderId)
    requires SidesAlike(s, t)
    ensures |Lookup(s, id)| == |Lookup(t, id)| <= 1
    ensures Lookup(s, id) != [] ==> Alike(Lookup(s, id)[0], Lookup(t, id)[0])
  {
    if s != [] {
      assert Alike(s[0], t[0]);
      TailAlike(s, t);
      LookupAlike(s[1..], t[1..], id);
    }
  }

  // ----- Commands

  /** The change of an update has the same effect whether it is read with the precision that is shown, as
    a live request, or with the precision that is kept, as a log row. */
  predicate SameReading(c: Config, cmd: Command) {
    cmd.UpdateBalance? && cmd.asset in c.assets ==>
      var t := c.assets[cmd.asset];
      Effect(Parse(cmd.change, t.precShow), t.precSave) == Effect(Parse(cmd.change, t.precSave), t.precSave)
  }

  /** A number that both precisions can represent is read the same. */
  lemma RepresentableReadsSame(c: Config, cmd: Command)
    requires cmd.UpdateBalance? && cmd.asset in c.assets
    requires OnGrid(cmd.change, c.assets[cmd.asset].precShow) && OnGrid(cmd.change, c.assets[cmd.asset].precSave)
    ensures SameReading(c, cmd)
  {
    var t := c.assets[cmd.asset];
    TruncateExact(cmd.change, t.precShow);
    TruncateExact(cmd.change, t.precSave);
  }

  lemma PutAlike(c: Config, a: State, b: State, i: nat, o: Order, o': Order)
    requires StatesAlike(a, b) && i < |c.markets| == |a.books| && Alike(o, o')
    ensures StatesAlike(OrderPut(c, a, i, o), OrderPut(c, b, i, o'))
  {
    hide Mul, Move, Insert;
    var p, p' := o.(freeze := Give(o.side, o.price, o.left)), o'.(freeze := Give(o'.side, o'.price, o'.left));
    InsertAlike(SideOf(a.books[i], o.side), SideOf(b.books[i], o.side), p, p');
  }

  lemma LimitAlike(c: Config, a: State, b: State, i: nat, user: UserId, side: Side, amount: Dec, price: Dec,
          takerFee: Dec, makerFee: Dec)
    requires Inv(c, a) && StatesAlike(a, b) && i < |c.markets| == |a.books| && BooksPriced(a) && BooksPriced(b)
    requires var m := c.markets[i];
      && amount > 0.0 && price > 0.0 && OnGrid(amount, m.stockPrec) && OnGrid(price, m.moneyPrec)
      && FeeArgument(takerFee) && FeeArgument(makerFee) && OnGrid(takerFee, m.feePrec) && OnGrid(makerFee, m.feePrec)
    ensures var r, s := PutLimit(c, a, i, user, side, amount, price, takerFee, makerFee),
      PutLimit(c, b, i, user, side, amount, price, takerFee, makerFee);
      StatesAlike(r.state, s.state) && r.reply == s.reply && r.deals == s.deals && s.state.updates == b.updates
  {
    hide Mul, Inv, Execute, TakerOk, LimitOk, OnGrid, Give, OrderPut, StatesAlike, Budget;
    AlikeView(a, b, i, side);
    var m := c.markets[i];
    var taker := NewOrder(a.lastOrder + 1, LIMIT, side, user, price, amount, takerFee, makerFee);
    if Available(a, user, GiveAsset(m, side)) >= Give(side, price, amount) && amount >= m.minAmount {
      NewOrderOk(m, taker.id, side, user, price, amount, takerFee, makerFee);
      assert a.books[i] in a.books && b.books[i] in b.books;
      MatchAlike(c, a, b, i, taker);
      var x', y' := Execute(c.assets, m, StartMatch(a, i, taker)), Execute(c.assets, m, StartMatch(b, i, taker));
      if x'.taker.left != 0.0 {
        PutAlike(c, AfterMatch(a, i, x'), AfterMatch(b, i, y'), i, x'.taker, y'.taker);
        PutUpdates(c, AfterMatch(b, i, y'), i, y'.taker);
      }
    }
  }

  /** What the checks of an order command look at is the same. */
  lemma AlikeView(a: State, b: State, i: nat, side: Side)
    requires StatesAlike(a, b) && i < |a.books|
    ensures a.balance == b.balance && a.lastOrder == b.lastOrder && |a.books| == |b.books|
    ensures var s, t := SideOf(a.books[i], side), SideOf(b.books[i], side);
      |s| == |t| && (s != [] ==> s[0].price == t[0].price)
  {
    var s, t := SideOf(a.books[i], side), SideOf(b.books[i], side);
    assert s != [] ==> Alike(s[0], t[0]);
  }

  lemma MatchAlike(c: Config, a: State, b: State, i: nat, taker: Order)
    requires Inv(c, a) && StatesAlike(a, b) && i < |c.markets| == |a.books| && TakerOk(c.markets[i], taker)
    requires Available(a, taker.user, GiveAsset(c.markets[i], taker.side)) >= Budget(taker)
    requires Priced(StartMatch(a, i, taker).makers) && Priced(StartMatch(b, i, taker).makers)
    ensures var x, y := Execute(c.assets, c.markets[i], StartMatch(a, i, taker)),
      Execute(c.assets, c.markets[i], StartMatch(b, i, taker));
      && Alike(x.taker, y.taker) && x.deals == y.deals
      && StatesAlike(AfterMatch(a, i, x), AfterMatch(b, i, y)) && AfterMatch(b, i, y).updates == b.updates
  {
    hide Mul, Inv, Execute, MatchOk, TakerOk, Budget, Available;
    MatchStarts(c, a, i, taker);
    var x, y := StartMatch(a, i, taker), StartMatch(b, i, taker);
    ExecuteAlike(c.assets, c.markets[i], x, y);
    AfterAlike(a, b, i, Execute(c.assets, c.markets[i], x), Execute(c.assets, c.markets[i], y));
  }

  lemma PutUpdates(c: Config, st: State, i: nat, o: Order)
    requires i < |c.markets| == |st.books|
    ensures OrderPut(c, st, i, o).updates == st.updates
  {
  }

  lemma AfterAlike(a: State, b: State, i: nat, x: Match, y: Match)
    requires StatesAlike(a, b) && i < |a.books| && MatchesAlike(x, y)
    ensures StatesAlike(AfterMatch(a, i, x), AfterMatch(b, i, y))
  {
  }

  lemma MarketAlike(c: Config, a: State, b: State, i: nat, user: UserId, side: Side, amount: Dec, takerFee: Dec)
    requires Inv(c, a) && StatesAlike(a, b) && i < |c.markets| == |a.books| && BooksPriced(a) && BooksPriced(b)
    requires amount > 0.0 && OnGrid(amount, c.markets[i].stockPrec) && FeeArgument(takerFee)
      && OnGrid(takerFee, c.markets[i].feePrec)
    ensures var r, s := PutMarket(c, a, i, user, side, amount, takerFee),
      PutMarket(c, b, i, user, side, amount, takerFee);
      StatesAlike(r.state, s.state) && r.reply == s.reply && r.deals == s.deals && s.state.updates == b.updates
  {
    hide Mul, Inv, Execute, TakerOk, OnGrid, AfterMatch, StatesAlike, Budget;
    AlikeView(a, b, i, Opposite(side));
    var m := c.markets[i];
    var taker := NewOrder(a.lastOrder + 1, MARKET, side, user, 0.0, amount, takerFee, 0.0);
    if Available(a, user, GiveAsset(m, side)) >= amount {
      NewMarketOrderOk(m, taker.id, side, user, amount, takerFee);
      assert a.books[i] in a.books && b.books[i] in b.books;
      MatchAlike(c, a, b, i, taker);
    }
  }

  lemma CancelAlike(c: Config, a: State, b: State, i: nat, user: UserId, id: OrderId, source: Source)
    requires StatesAlike(a, b) && i < |c.markets| == |a.books|
    requires Cancel(c, a, i, user, id, LIVE).reply == Done
    ensures var r, s := Cancel(c, a, i, user, id, LIVE), Cancel(c, b, i, user, id, source);
      StatesAlike(r.state, s.state) && s.reply == Done && s.state.updates == b.updates
  {
    hide Mul, Move, Lookup, Remove;
    LookupAlike(a.books[i].asks, b.books[i].asks, id);
    LookupAlike(a.books[i].bids, b.books[i].bids, id);
    var o := FindOrder(a.books[i], id)[0];
    RemoveAlike(SideOf(a.books[i], o.side), SideOf(b.books[i], o.side), o.id);
  }

  lemma UpdateAlike(c: Config, a: State, b: State, key: UpdateKey, change: Dec, change': Dec)
    requires Inv(c, a) && StatesAlike(a, b) && key.asset in c.assets
    requires Effect(change, c.assets[key.asset].precSave) == Effect(change', c.assets[key.asset].precSave)
    requires Update(c, a, key, change).reply == Done
    ensures var r, s := Update(c, a, key, change), Update(c, b, key, change');
      && (s.reply == Done <==> key !in b.updates)
      && (s.reply == Done ==> StatesAlike(r.state, s.state) && s.state.updates == b.updates + {key})
  {
    hide BookOk, IdsOk, Effect, Locked, Sound, Add, Sub, Total;
    var k := Key(key.user, AVAILABLE, key.asset);
    ChangeApplies(c.assets, a.balance, k, change);
    ChangeApplies(c.assets, a.balance, k, change');
    var r := if change >= 0.0 then Add(c.assets, a.balance, k, change) else Sub(c.assets, a.balance, k, -change);
    var s := if change' >= 0.0 then Add(c.assets, a.balance, k, change') else Sub(c.assets, a.balance, k, -change');
    ChangedOnce(c.assets, a.balance, r.balance, s.balance, k, Effect(change, c.assets[key.asset].precSave));
  }

  /** A sound dictionary is determined by what it reads at each key. */
  lemma ChangedOnce(assets: Assets, b: Balance, d: Balance, e: Balance, k: Key, delta: Dec)
    requires Sound(assets, d) && Sound(assets, e) && Changed(b, d, k, delta) && Changed(b, e, k, delta)
    ensures d == e
  {
    hide Total;
    forall j ensures At(d, j) == At(e, j) {}
    SoundEqual(assets, d, e);
  }

  lemma SoundEqual(assets: Assets, d: Balance, e: Balance)
    requires Sound(assets, d) && Sound(assets, e) && forall j :: At(d, j) == At(e, j)
    ensures d == e
  {
    forall j ensures j in d <==> j in e {
      assert At(d, j) == At(e, j);
    }
    forall j | j in d ensures d[j] == e[j] {
      assert At(d, j) == At(e, j);
    }
  }

  function KeyOf(cmd: Command): UpdateKey
    requires cmd.UpdateBalance?
  {
    UpdateKey(cmd.user, cmd.asset, cmd.business, cmd.businessId)
  }

  lemma AlikePriced(c: Config, a: State, b: State)
    requires Inv(c, a) && StatesAlike(a, b)
    ensures BooksPriced(a) && BooksPriced(b) && |c.markets| == |a.books| == |b.books|
  {
    hide Mul, Sound, IdsOk, FrozenIsLocked, Uncrossed;
    InvPriced(c, a);
    forall i | 0 <= i < |b.books| ensures Priced(b.books[i].asks) && Priced(b.books[i].bids) {
      assert a.books[i] in a.books;
      SideAlikePriced(a.books[i].asks, b.books[i].asks);
      SideAlikePriced(a.books[i].bids, b.books[i].bids);
    }
  }

  lemma SideAlikePriced(s: seq<Order>, t: seq<Order>)
    requires SidesAlike(s, t) && Priced(s)
    ensures Priced(t)
  {
    forall o | o in t ensures o.price > 0.0 {
      var i :| 0 <= i < |t| && t[i] == o;
      assert Alike(s[i], t[i]) && s[i] in s;
    }
  }

  /** A command that the live engine accepted does the same when it is sent to, or replayed on, an engine
    that is alike, except that an update whose key is already in that engine's table is refused. */
  lemma StepReplays(c: Config, a: State, b: State, cmd: Command, source: Source)
    requires Inv(c, a) && StatesAlike(a, b) && BooksPriced(a) && BooksPriced(b) && |c.markets| == |a.books|
    requires Aligned(c, cmd) && (source == REPLAY ==> SameReading(c, cmd)) && Step(c, a, cmd, LIVE).reply == Done
    ensures |c.markets| == |b.books|
    ensures var r, s := Step(c, a, cmd, LIVE), Step(c, b, cmd, source);
      && (s.reply == Done <==> !(cmd.UpdateBalance? && KeyOf(cmd) in b.updates))
      && (s.reply == Done ==> StatesAlike(r.state, s.state))
      && (s.reply == Done ==> s.state.updates == b.updates + (if cmd.UpdateBalance? then {KeyOf(cmd)} else {}))
  {
    hide Inv, PutLimit, PutMarket, Cancel, Update, Effect, StatesAlike, OnGrid;
    assert |a.books| == |b.books| by { AlikePriced(c, a, b); }
    match cmd
    case UpdateBalance(user, asset, business, businessId, change) =>
      var t := c.assets[asset];
      UpdateAlike(c, a, b, KeyOf(cmd), Parse(change, t.precShow),
        Parse(change, if source == LIVE then t.precShow else t.precSave));
    case LimitOrder(user, i, side, amount, price, takerFee, makerFee) =>
      var m := c.markets[i];
      ParseOnGrid(amount, m.stockPrec);
      ParseOnGrid(price, m.moneyPrec);
      ParseOnGrid(takerFee, m.feePrec);
      ParseOnGrid(makerFee, m.feePrec);
      LimitAlike(c, a, b, i, user, side, Parse(amount, m.stockPrec), Parse(price, m.moneyPrec),
        Parse(takerFee, m.feePrec), Parse(makerFee, m.feePrec));
    case MarketOrder(user, i, side, amount, takerFee) =>
      var m := c.markets[i];
      ParseOnGrid(amount, m.stockPrec);
      ParseOnGrid(takerFee, m.feePrec);
      MarketAlike(c, a, b, i, user, side, Parse(amount, m.stockPrec), Parse(takerFee, m.feePrec));
    case CancelOrder(user, i, id) =>
      CancelAlike(c, a, b, i, user, id, source);
  }
}
