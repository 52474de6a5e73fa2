/** Every command, and so every run of commands, keeps the invariant and conserves each asset. */
module EngineRuns {
  import opened Decimal
  import opened Balances
  import opened Orders
  import opened Matching
  import opened MatchingProofs
  import opened Execution
  import opened EngineSpec
  import opened EngineInvariant

  /** A number that `decimal` puts on the grid of this precision. It always does so for a positive
    precision; precision zero leaves the number as it is. */
  predicate ParsesTo(x: Dec, prec: nat) {
    prec == 0 ==> IsInt(x)
  }

  /** The numbers of an order command land on the grids of its market. */
  predicate Aligned(c: Config, cmd: Command) {
    match cmd
    case LimitOrder(_, i, _, amount, price, takerFee, makerFee) =>
      i < |c.markets| ==>
        var m := c.markets[i];
        ParsesTo(amount, m.stockPrec) && ParsesTo(price, m.moneyPrec) && ParsesTo(takerFee, m.feePrec)
          && ParsesTo(makerFee, m.feePrec)
    case MarketOrder(_, i, _, amount, takerFee) =>
      i < |c.markets| ==> ParsesTo(amount, c.markets[i].stockPrec) && ParsesTo(takerFee, c.markets[i].feePrec)
    case _ => true
  }

  lemma ParseOnGrid(x: Dec, prec: nat)
    requires ParsesTo(x, prec)
    ensures OnGrid(Parse(x, prec), prec)
  {
    if prec > 0 {
      if x >= 0.0 {
        TruncateIsFloor(x, prec);
      } else {
        TruncateIsFloor(-x, prec);
        OnGridNegate(Truncate(-x, prec), prec);
      }
    }
  }

  /** `decimal` cuts a number to its precision toward zero, and leaves it as it is if that is zero. */
  lemma ParseMeaning(x: Dec, prec: nat)
    ensures prec == 0 ==> Parse(x, prec) == x
    ensures prec > 0 ==> OnGrid(Parse(x, prec), prec)
    ensures prec > 0 && x >= 0.0 ==> 0.0 <= Parse(x, prec) <= x < Parse(x, prec) + Unit(prec)
    ensures prec > 0 && x < 0.0 ==> Parse(x, prec) - Unit(prec) < x <= Parse(x, prec) <= 0.0
  {
    if prec > 0 {
      ParseOnGrid(x, prec);
      if x >= 0.0 { TruncateIsFloor(x, prec); } else { TruncateIsFloor(-x, prec); }
    }
  }

  // ----- Balance updates

  /** What an accepted change adds to a balance kept with precision `prec`. */
  function Effect(change: Dec, prec: nat): Dec {
    if change >= 0.0 then Truncate(change, prec) else -RoundUp(-change, prec)
  }

  /** A change succeeds exactly when the balance can bear its effect, and then has that effect. */
  lemma ChangeApplies(assets: Assets, b: Balance, k: Key, change: Dec)
    requires Sound(assets, b) && k.asset in assets
    ensures var r := if change >= 0.0 then Add(assets, b, k, change) else Sub(assets, b, k, -change);
      var effect := Effect(change, assets[k.asset].precSave);
      && (r.ok <==> At(b, k) + effect >= 0.0)
      && (r.ok ==> Changed(b, r.balance, k, effect) && Sound(assets, r.balance))
  {
    hide Total, Sound, OnGrid, RoundUp;
    var p := assets[k.asset].precSave;
    SoundAt(assets, b, k);
    if change >= 0.0 {
      TruncatedAdd(At(b, k), change, p);
      TruncateIsFloor(change, p);
      PutSound(assets, b, k, At(b, k) + Truncate(change, p));
      PutChanges(b, k, Truncate(change, p));
    } else {
      RoundUpIsCeiling(-change, p);
      if At(b, k) >= -change {
        SubRoundsUp(assets, b, k, -change);
        PutChanges(b, k, -RoundUp(-change, p));
      } else if At(b, k) >= RoundUp(-change, p) {
        RoundUpLeast(-change, At(b, k), p);
        assert false;
      }
    }
  }

  lemma UpdateChanges(c: Config, st: State, key: UpdateKey, change: Dec)
    requires Inv(c, st) && key.asset in c.assets
    ensures var r, k := Update(c, st, key, change), Key(key.user, AVAILABLE, key.asset);
      var effect := Effect(change, c.assets[key.asset].precSave);
      && (r.reply == Done <==> key !in st.updates && At(st.balance, k) + effect >= 0.0)
      && (r.reply == Done ==> Changed(st.balance, r.state.balance, k, effect) && r.state.updates == st.updates + {key})
      && (r.reply != Done ==> r.state == st)
      && Inv(c, r.state) && r.deals == []
      && r.state == st.(balance := r.state.balance, updates := r.state.updates)
  {
    hide BookOk, IdsOk, Total, Effect, Add, Sub, Sound, Put, At, Locked;
    ChangeApplies(c.assets, st.balance, Key(key.user, AVAILABLE, key.asset), change);
  }

  // ----- Orders

  lemma NewOrderOk(m: Market, id: OrderId, side: Side, user: UserId, price: Dec, amount: Dec, takerFee: Dec,
          makerFee: Dec)
    requires amount > 0.0 && price > 0.0 && OnGrid(amount, m.stockPrec) && OnGrid(price, m.moneyPrec)
    requires FeeArgument(takerFee) && FeeArgument(makerFee) && OnGrid(takerFee, m.feePrec)
      && OnGrid(makerFee, m.feePrec)
    ensures var o := NewOrder(id, LIMIT, side, user, price, amount, takerFee, makerFee);
      TakerOk(m, o) && LimitOk(m, o) && Budget(o) == Give(side, price, amount)
  {
    hide Mul;
    MulZero(price);
    OnGridZero(m.stockPrec);
    OnGridZero(m.stockPrec + m.moneyPrec);
  }

  lemma NewMarketOrderOk(m: Market, id: OrderId, side: Side, user: UserId, amount: Dec, takerFee: Dec)
    requires amount > 0.0 && OnGrid(amount, m.stockPrec) && FeeArgument(takerFee) && OnGrid(takerFee, m.feePrec)
    ensures var o := NewOrder(id, MARKET, side, user, 0.0, amount, takerFee, 0.0);
      TakerOk(m, o) && Budget(o) == amount
  {
    OnGridZero(m.feePrec);
  }

  /** What a command may do to the totals: an accepted update adds its effect, deals take their fees. */
  ghost function Deposited(c: Config, cmd: Command, source: Source, reply: Reply, asset: Asset): Dec {
    if cmd.UpdateBalance? && reply == Done && cmd.asset == asset && asset in c.assets then
      var t := c.assets[asset];
      Effect(Parse(cmd.change, if source == LIVE then t.precShow else t.precSave), t.precSave)
    else 0.0
  }

  ghost predicate Conserves(c: Config, st: State, cmd: Command, source: Source, r: Result) {
    forall a :: Total(r.state.balance, a) == Total(st.balance, a)
      + Deposited(c, cmd, source, r.reply, a) - SumCharged(c.assets, r.deals, a)
  }

  lemma PutLimitKeeps(c: Config, st: State, i: nat, user: UserId, side: Side, amount: Dec, price: Dec, takerFee: Dec,
          makerFee: Dec)
    requires Inv(c, st) && i < |c.markets| == |st.books| && BooksPriced(st)
    requires var m := c.markets[i];
      && amount > 0.0 && price > 0.0 && OnGrid(amount, m.stockPrec) && OnGrid(price, m.moneyPrec)
      && FeeArgument(takerFee) && FeeArgument(makerFee) && OnGrid(takerFee, m.feePrec) && OnGrid(makerFee, m.feePrec)
    ensures var r := PutLimit(c, st, i, user, side, amount, price, takerFee, makerFee);
      && Inv(c, r.state) && r.state.updates == st.updates
      && (r.reply != Done ==> r.state == st && r.deals == [])
      && (forall a :: Total(r.state.balance, a) == Total(st.balance, a) - SumCharged(c.assets, r.deals, a))
  {
    hide Mul, Inv, Execute, TakerOk, LimitOk, Total, SumCharged, OrderPut, Give, Budget, AfterMatch, OnGrid;
    var m := c.markets[i];
    assert st.books[i] in st.books;
    var taker := NewOrder(st.lastOrder + 1, LIMIT, side, user, price, amount, takerFee, makerFee);
    NewOrderOk(m, taker.id, side, user, price, amount, takerFee, makerFee);
    NoCharge(c);
    if Available(st, user, GiveAsset(m, side)) >= Give(side, price, amount) && amount >= m.minAmount {
      LimitMatchKeeps(c, st, i, taker);
    }
  }

  lemma LimitMatchKeeps(c: Config, st: State, i: nat, taker: Order)
    requires Inv(c, st) && i < |c.markets| && BooksPriced(st) && Priced(StartMatch(st, i, taker).makers)
    requires TakerOk(c.markets[i], taker) && taker.kind == LIMIT && taker.id == st.lastOrder + 1
    requires Available(st, taker.user, GiveAsset(c.markets[i], taker.side)) >= Budget(taker)
    ensures var y := Execute(c.assets, c.markets[i], StartMatch(st, i, taker));
      var st' := AfterMatch(st, i, y);
      var r := if y.taker.left == 0.0 then st' else OrderPut(c, st', i, y.taker);
      && Inv(c, r) && r.updates == st.updates
      && (forall a :: Total(r.balance, a) == Total(st.balance, a) - SumCharged(c.assets, y.deals, a))
  {
    hide Mul, Sound, FrozenIsLocked, Execute, MatchOk, LimitOk, TakerOk, Total, SumCharged, IdsOk, BookOk, Give,
      Budget, Stops, Move, Insert;
    var m := c.markets[i];
    MatchKeepsInv(c, st, i, taker);
    var x := StartMatch(st, i, taker);
    var y := Execute(c.assets, m, x);
    ExecuteKeeps(c.assets, m, x);
    assert y.deals[|x.deals|..] == y.deals;
    var st' := AfterMatch(st, i, y);
    if y.taker.left != 0.0 {
      RestReady(c, m, y);
      PutKeepsInv(c, st', i, y.taker, st.lastOrder);
    }
  }

  /** What a match leaves of a limit order is fit to rest. */
  lemma RestReady(c: Config, m: Market, y: Match)
    requires MatchOk(c.assets, m, y) && Priced(y.makers) && Stops(m, y) && y.taker.kind == LIMIT && y.taker.left != 0.0
    ensures LimitOk(m, y.taker) && y.taker.left > 0.0
    ensures At(y.balance, Key(y.taker.user, AVAILABLE, GiveAsset(m, y.taker.side)))
      >= Give(y.taker.side, y.taker.price, y.taker.left)
    ensures y.makers == [] || TooExpensive(y.taker, y.makers[0])
  {
    hide Mul, Sound, Covered;
  }

  lemma PutMarketKeeps(c: Config, st: State, i: nat, user: UserId, side: Side, amount: Dec, takerFee: Dec)
    requires Inv(c, st) && i < |c.markets| && BooksPriced(st)
    requires amount > 0.0 && OnGrid(amount, c.markets[i].stockPrec) && FeeArgument(takerFee)
      && OnGrid(takerFee, c.markets[i].feePrec)
    ensures var r := PutMarket(c, st, i, user, side, amount, takerFee);
      && Inv(c, r.state) && r.state.updates == st.updates
      && (r.reply != Done ==> r.state == st && r.deals == [])
      && (forall a :: Total(r.state.balance, a) == Total(st.balance, a) - SumCharged(c.assets, r.deals, a))
  {
    hide Mul, Sound, FrozenIsLocked, Execute, MatchOk, LimitOk, Covered, Total, SumCharged, IdsOk, BookOk,
      MarketTakerOk;
    var m := c.markets[i];
    var taker := NewOrder(st.lastOrder + 1, MARKET, side, user, 0.0, amount, takerFee, 0.0);
    NewMarketOrderOk(m, taker.id, side, user, amount, takerFee);
    if Available(st, user, GiveAsset(m, side)) >= amount {
      MatchKeepsInv(c, st, i, taker);
      var x := StartMatch(st, i, taker);
      ExecuteKeeps(c.assets, m, x);
      assert Execute(c.assets, m, x).deals[|x.deals|..] == Execute(c.assets, m, x).deals;
    }
    NoCharge(c);
  }

  lemma NoCharge(c: Config)
    ensures forall a :: SumCharged(c.assets, [], a) == 0.0
  {
  }

  lemma {:induction false} LookupFinds(s: seq<Order>, id: OrderId)
    ensures Lookup(s, id) == [] <==> forall o | o in s :: o.id != id
    ensures Lookup(s, id) != [] ==> |Lookup(s, id)| == 1 && Lookup(s, id)[0] in s && Lookup(s, id)[0].id == id
  {
    if s != [] {
      LookupFinds(s[1..], id);
      assert forall o :: o in s <==> o == s[0] || o in s[1..];
    }
  }

  lemma CancelKeeps(c: Config, st: State, i: nat, user: UserId, id: OrderId, source: Source)
    requires Inv(c, st) && i < |c.markets|
    ensures var r := Cancel(c, st, i, user, id, source);
      && Inv(c, r.state) && r.state.updates == st.updates && r.deals == []
      && (r.reply != Done ==> r.state == st)
      && (forall a :: Total(r.state.balance, a) == Total(st.balance, a))
  {
    hide Sound, FrozenIsLocked, IdsOk, LimitOk, Total, Release, Remove, Lookup;
    var b := st.books[i];
    LookupFinds(b.asks, id);
    LookupFinds(b.bids, id);
    var found := FindOrder(b, id);
    if found != [] {
      assert BookOk(c.markets[i], b);
      CancelKeepsInv(c, st, i, found[0]);
    }
  }

  lemma InvShape(c: Config, st: State)
    requires Inv(c, st)
    ensures |c.markets| == |st.books| && BooksPriced(st)
  {
    InvPriced(c, st);
  }

  /** Every command keeps the invariant, changes nothing when it is rejected, and changes the total of an
    asset only by an accepted deposit or withdrawal and by the fees of its deals. */
  lemma StepKeeps(c: Config, st: State, cmd: Command, source: Source)
    requires Inv(c, st) && BooksPriced(st) && Aligned(c, cmd)
    ensures var r := Step(c, st, cmd, source);
      && Inv(c, r.state) && Conserves(c, st, cmd, source, r)
      && (r.reply != Done ==> r.state == st && r.deals == [])
      && (!cmd.UpdateBalance? ==> r.state.updates == st.updates)
  {
    hide Inv, PutLimit, PutMarket, Cancel, Update, Effect, Total, SumCharged, Truncate, OnGrid;
    NoCharge(c);
    InvShape(c, st);
    match cmd
    case UpdateBalance(user, asset, business, businessId, change) =>
      if asset in c.assets {
        var prec := if source == LIVE then c.assets[asset].precShow else c.assets[asset].precSave;
        UpdateChanges(c, st, UpdateKey(user, asset, business, businessId), Parse(change, prec));
      }
    case LimitOrder(user, i, side, amount, price, takerFee, makerFee) =>
      if i < |c.markets| {
        var m := c.markets[i];
        ParseOnGrid(amount, m.stockPrec);
        ParseOnGrid(price, m.moneyPrec);
        ParseOnGrid(takerFee, m.feePrec);
        ParseOnGrid(makerFee, m.feePrec);
        if Parse(amount, m.stockPrec) > 0.0 && Parse(price, m.moneyPrec) > 0.0
           && FeeArgument(Parse(takerFee, m.feePrec)) && FeeArgument(Parse(makerFee, m.feePrec)) {
          PutLimitKeeps(c, st, i, user, side, Parse(amount, m.stockPrec), Parse(price, m.moneyPrec),
            Parse(takerFee, m.feePrec), Parse(makerFee, m.feePrec));
        }
      }
    case MarketOrder(user, i, side, amount, takerFee) =>
      if i < |c.markets| {
        var m := c.markets[i];
        ParseOnGrid(amount, m.stockPrec);
        ParseOnGrid(takerFee, m.feePrec);
        if Parse(amount, m.stockPrec) > 0.0 && FeeArgument(Parse(takerFee, m.feePrec)) {
          PutMarketKeeps(c, st, i, user, side, Parse(amount, m.stockPrec), Parse(takerFee, m.feePrec));
        }
      }
    case CancelOrder(user, i, id) =>
      if i < |c.markets| { CancelKeeps(c, st, i, user, id, source); }
  }

  // ----- Runs

  /** A request of a client, or the timer of `me_update.c` forgetting old update keys. */
  datatype Event = Request(cmd: Command) | Forget(keys: set<UpdateKey>)

  predicate AllAligned(c: Config, events: seq<Event>) {
    forall e | e in events :: e.Request? ==> Aligned(c, e.cmd)
  }

  /** Where a run ends, the accepted commands, which the engine logs, and the deals that were made. */
  datatype RunResult = RunResult(state: State, log: seq<Command>, deals: seq<Deal>)

  /** One command, from a state that satisfies the invariant. */
  ghost function SafeStep(c: Config, st: State, cmd: Command, source: Source): (r: Result)
    requires Inv(c, st) && Aligned(c, cmd)
    ensures Inv(c, r.state) && Conserves(c, st, cmd, source, r)
    ensures r.reply != Done ==> r.state == st && r.deals == []
  {
    InvShape(c, st);
    StepKeeps(c, st, cmd, source);
    Step(c, st, cmd, source)
  }

  ghost function Happen(c: Config, st: State, e: Event): (r: RunResult)
    requires Inv(c, st) && (e.Request? ==> Aligned(c, e.cmd))
    ensures Inv(c, r.state)
  {
    match e
    case Request(cmd) =>
      var r := SafeStep(c, st, cmd, LIVE);
      RunResult(r.state, if r.reply == Done then [cmd] else [], r.deals)
    case Forget(keys) => RunResult(st.(updates := st.updates - keys), [], [])
  }

  ghost function Run(c: Config, st: State, events: seq<Event>): RunResult
    requires Inv(c, st) && AllAligned(c, events)
    decreases |events|
  {
    if events == [] then RunResult(st, [], [])
    else
      var r := Happen(c, st, events[0]);
      var rest := Run(c, r.state, events[1..]);
      RunResult(rest.state, r.log + rest.log, r.deals + rest.deals)
  }

  /** What the accepted updates of a run added to an asset. */
  ghost function AllDeposited(c: Config, log: seq<Command>, asset: Asset): Dec {
    if log == [] then 0.0 else Deposited(c, log[0], LIVE, Done, asset) + AllDeposited(c, log[1..], asset)
  }

  lemma {:induction false} SumChargedAppend(assets: Assets, d: seq<Deal>, e: seq<Deal>, a: Asset)
    ensures SumCharged(assets, d + e, a) == SumCharged(assets, d, a) + SumCharged(assets, e, a)
  {
    hide Charged;
    if d == [] {
      assert d + e == e;
    } else {
      SumChargedAppend(assets, d[1..], e, a);
      assert (d + e)[1..] == d[1..] + e;
    }
  }

  lemma {:induction false} AllDepositedAppend(c: Config, x: seq<Command>, y: seq<Command>, a: Asset)
    ensures AllDeposited(c, x + y, a) == AllDeposited(c, x, a) + AllDeposited(c, y, a)
  {
    hide Deposited;
    if x == [] {
      assert x + y == y;
    } else {
      AllDepositedAppend(c, x[1..], y, a);
      assert (x + y)[1..] == x[1..] + y;
    }
  }

  lemma HappenConserves(c: Config, st: State, e: Event, a: Asset)
    requires Inv(c, st) && (e.Request? ==> Aligned(c, e.cmd))
    ensures var r := Happen(c, st, e);
      Total(r.state.balance, a) == Total(st.balance, a) + AllDeposited(c, r.log, a) - SumCharged(c.assets, r.deals, a)
  {
    hide Inv, Step, Total, SumCharged, Effect, Aligned;
    NoCharge(c);
    if e.Request? {
      var r := SafeStep(c, st, e.cmd, LIVE);
      assert [e.cmd][1..] == [];
    }
  }

  /** Conservation over every run: an asset's total is what it was, plus the accepted updates, minus the
    charged fees of all deals. Orders, cancels and rejected commands move nothing else. */
  lemma {:induction false} RunConserves(c: Config, st: State, events: seq<Event>, a: Asset)
    requires Inv(c, st) && AllAligned(c, events)
    ensures var r := Run(c, st, events);
      && Inv(c, r.state)
      && Total(r.state.balance, a) == Total(st.balance, a)
        + AllDeposited(c, r.log, a) - SumCharged(c.assets, r.deals, a)
    decreases |events|
  {
    hide Inv, Happen, Total, SumCharged, AllDeposited, Aligned;
    if events == [] {
      NothingHappens(c, a);
    } else {
      var r := Happen(c, st, events[0]);
      HappenConserves(c, st, events[0], a);
      RunConserves(c, r.state, events[1..], a);
      var rest := Run(c, r.state, events[1..]);
      SumChargedAppend(c.assets, r.deals, rest.deals, a);
      AllDepositedAppend(c, r.log, rest.log, a);
    }
  }

  lemma NothingHappens(c: Config, a: Asset)
    ensures AllDeposited(c, [], a) == 0.0 && SumCharged(c.assets, [], a) == 0.0
  {
  }

  /** The states an engine can be in. */
  ghost function Reached(c: Config, events: seq<Event>): State
    requires ConfigOk(c) && AllAligned(c, events)
  {
    InitialInv(c);
    Run(c, InitialState(c), events).state
  }

  lemma ReachedInv(c: Config, events: seq<Event>)
    requires ConfigOk(c) && AllAligned(c, events)
    ensures Inv(c, Reached(c, events))
  {
    hide Run;
    InitialInv(c);
    RunConserves(c, InitialState(c), events, "");
  }

  /** In every reachable state each user's frozen balance of an asset is the collateral of the user's open
    orders over all markets, no balance is negative, and no order id is used twice. */
  lemma ReachedFrozen(c: Config, events: seq<Event>)
    requires ConfigOk(c) && AllAligned(c, events)
    ensures var st := Reached(c, events);
      && |st.books| == |c.markets| && IdsOk(st.books, st.lastOrder)
      && (forall u, a :: At(st.balance, Key(u, FREEZE, a)) == Locked(c.markets, st.books, u, a))
      && (forall k :: At(st.balance, k) >= 0.0)
  {
    hide Reached, Locked, OnGrid, IdsOk;
    ReachedInv(c, events);
  }

  /** In every reachable state no market is crossed, both sides are in price and time priority, and every open order
    holds collateral for exactly what it has left and has traded within its price and its amount. */
  lemma ReachedBooks(c: Config, events: seq<Event>, i: nat)
    requires ConfigOk(c) && AllAligned(c, events) && i < |c.markets|
    ensures var st := Reached(c, events);
      && |st.books| == |c.markets|
      && Uncrossed(st.books[i]) && Sorted(st.books[i].asks) && Sorted(st.books[i].bids)
      && PriceTime(st.books[i].asks, ASK) && PriceTime(st.books[i].bids, BID)
      && (forall o | o in st.books[i].asks ::
            o.side == ASK && o.freeze == o.left > 0.0 && o.dealStock + o.left == o.amount
              && o.dealMoney >= Mul(o.price, o.dealStock))
      && (forall o | o in st.books[i].bids ::
            o.side == BID && o.freeze == Mul(o.price, o.left) && o.left > 0.0 && o.dealStock + o.left == o.amount
            && o.dealMoney <= Mul(o.price, o.dealStock))
  {
    hide Mul, Reached, OnGrid, Uncrossed, Sorted;
    ReachedInv(c, events);
    var b := Reached(c, events).books[i];
    assert BookOk(c.markets[i], b);
    assert forall o | o in b.asks :: Resting(c.markets[i], o, ASK);
    assert forall o | o in b.bids :: Resting(c.markets[i], o, BID);
    SortedIsPriceTime(b.asks, ASK);
    SortedIsPriceTime(b.bids, BID);
  }

  // ----- Fees

  /** The stock fee of a deal is charged exactly. The money fee is rounded up to a whole unit, so the fee
    that the order records lags behind what was charged by less than one unit. */
  lemma FeeLag(c: Config, m: Market, d: Deal, taker: Order, maker: Order)
    requires MarketOk(c.assets, m) && d == DealOf(d.id, m, taker, maker, d.amount)
    requires taker.side == Opposite(maker.side) && FeesOk(m, taker) && FeesOk(m, maker) && OnGrid(d.amount, m.stockPrec)
    ensures Charged(c.assets, d, m.stock) == d.bidFee
    ensures d.askFee <= Charged(c.assets, d, m.money) < d.askFee + Unit(c.assets[m.money].precSave)
  {
    hide Mul;
    var rate := if taker.side == BID then taker.takerFee else maker.makerFee;
    assert d.bidFee == Mul(d.amount, rate);
    GridMul(d.amount, m.stockPrec, rate, m.feePrec);
    OnGridFiner(d.bidFee, m.stockPrec + m.feePrec, c.assets[m.stock].precSave);
    RoundUpExact(d.bidFee, c.assets[m.stock].precSave);
    RoundUpIsCeiling(d.askFee, c.assets[m.money].precSave);
  }
}
