/** What a slice loses of a balance with more than sixteen digits, at concrete histories. */
module RestartCases {
  import opened Wrappers
  import opened Decimal
  import opened Balances
  import opened Orders
  import opened Matching
  import opened MatchingProofs
  import opened EngineSpec
  import opened EngineInvariant
  import opened EngineRuns
  import opened Replay
  import opened Restart
  import opened History

  // ----- Grids of literals

  lemma FourDigits(p: nat)
    ensures Unit(p + 4) == Unit(p) / 10000.0
  {
    assert Unit(p + 2) == Unit(p + 1) / 10.0 && Unit(p + 4) == Unit(p + 3) / 10.0;
  }

  lemma UnitValues()
    ensures Unit(4) == 0.0001 && Unit(8) == 0.00000001 && Unit(16) == 0.0000000000000001
    ensures Unit(20) == 0.00000000000000000001
  {
    assert Unit(0) == 1.0;
    FourDigits(0);
    FourDigits(4);
    FourDigits(8);
    FourDigits(12);
    FourDigits(16);
  }

  lemma {:induction false} UnitsOnGrid(n: int, p: nat, x: Dec)
    requires x == n as real * Unit(p)
    ensures OnGrid(x, p)
    decreases p
  {
    if p > 0 {
      UnitsOnGrid(n, p - 1, x * 10.0);
    } else {
      IntIsInt(n);
    }
  }

  // ----- A sale in the market of `bin/matchengine/config.json`

  const BCH: AssetType := AssetType(20, 8)
  const BTC: AssetType := AssetType(12, 8)
  const BTCBCH: Market := Market("BTC", "BCH", 8, 8, 4, 0.001)
  const SHIPPED: Config := Config(map["BCH" := BCH, "BTC" := BTC], [BTCBCH])

  const SIZE := 0.00100001
  const PRICE := 0.00000001
  const RATE := 0.0015
  const DEAL := 0.0000000000100001
  const FEE := 0.00000000000001500015
  const KEPT := 0.00000000000998509985
  const ROUNDED := 0.0000000000099851

  const SELLER: Key := Key(1, AVAILABLE, "BCH")

  const FUND_SELLER: Command := UpdateBalance(1, "BTC", "deposit", 1, 1.0)
  const FUND_BUYER: Command := UpdateBalance(2, "BCH", "deposit", 2, 1.0)
  const BUY: Command := LimitOrder(2, 0, BID, SIZE, PRICE, 0.0, 0.0)
  const SELL: Command := LimitOrder(1, 0, ASK, SIZE, PRICE, RATE, 0.0)
  const SALE: seq<Event> := [Request(FUND_SELLER), Request(FUND_BUYER), Request(BUY), Request(SELL)]

  lemma Literals()
    ensures OnGrid(SIZE, 8) && OnGrid(PRICE, 8) && OnGrid(RATE, 4) && OnGrid(0.0, 4) && OnGrid(1.0, 8)
      && OnGrid(1.0, 12) && OnGrid(1.0, 20)
    ensures OnGrid(FEE, 20) && OnGrid(ROUNDED, 16) && !OnGrid(KEPT, 16)
    ensures Mul(PRICE, SIZE) == DEAL && Mul(DEAL, RATE) == FEE && DEAL - FEE == KEPT
  {
    UnitValues();
    UnitsOnGrid(100001, 8, SIZE);
    UnitsOnGrid(1, 8, PRICE);
    UnitsOnGrid(15, 4, RATE);
    UnitsOnGrid(1500015, 20, FEE);
    UnitsOnGrid(99851, 16, ROUNDED);
    OnGridZero(4);
    IntIsInt(1);
    OnGridFiner(1.0, 0, 8);
    OnGridFiner(1.0, 0, 12);
    OnGridFiner(1.0, 0, 20);
    if OnGrid(KEPT, 16) { GridGap(KEPT, ROUNDED, 16); }
  }

  const DEPOSITED: State := State(
    map[Key(1, AVAILABLE, "BTC") := 1.0, Key(2, AVAILABLE, "BCH") := 1.0], [Book([], [])], 0, 0,
    {KeyOf(FUND_SELLER), KeyOf(FUND_BUYER)})

  lemma Deposits()
    ensures BooksPriced(InitialState(SHIPPED))
      && BooksPriced(State(map[Key(1, AVAILABLE, "BTC") := 1.0], [Book([], [])], 0, 0, {KeyOf(FUND_SELLER)}))
    ensures var one := State(map[Key(1, AVAILABLE, "BTC") := 1.0], [Book([], [])], 0, 0, {KeyOf(FUND_SELLER)});
      && Step(SHIPPED, InitialState(SHIPPED), FUND_SELLER, LIVE) == Result(one, Done, [])
      && Step(SHIPPED, one, FUND_BUYER, LIVE) == Result(DEPOSITED, Done, [])
  {
    hide OnGrid, Truncate;
    Literals();
    TruncateExact(1.0, 8);
    TruncateExact(1.0, 12);
    TruncateExact(1.0, 20);
    assert InitialState(SHIPPED).books == [Book([], [])];
  }

  lemma Setting()
    ensures ConfigOk(SHIPPED) && FitsSchema(SHIPPED) && AllAligned(SHIPPED, SALE)
    ensures Aligned(SHIPPED, FUND_SELLER) && Aligned(SHIPPED, FUND_BUYER) && Aligned(SHIPPED, BUY)
      && Aligned(SHIPPED, SELL)
  {
  }

  /** The order of the buyer rests. */
  lemma Bought()
    requires Inv(SHIPPED, DEPOSITED)
    ensures BooksPriced(DEPOSITED)
    ensures var r, o := Step(SHIPPED, DEPOSITED, BUY, LIVE),
      NewOrder(1, LIMIT, BID, 2, PRICE, SIZE, 0.0, 0.0).(freeze := DEAL);
      && r.reply == Done && r.state.books == [Book([], [o])] && r.state.lastOrder == 1
      && At(r.state.balance, Key(1, AVAILABLE, "BTC")) == 1.0 && At(r.state.balance, SELLER) == 0.0
  {
    hide OnGrid, Truncate, Mul, Inv, Move, Insert;
    Literals();
    Setting();
    InvShape(SHIPPED, DEPOSITED);
    TruncateExact(SIZE, 8);
    TruncateExact(PRICE, 8);
    TruncateExact(0.0, 4);
    var taker := NewOrder(1, LIMIT, BID, 2, PRICE, SIZE, 0.0, 0.0);
    var x := StartMatch(DEPOSITED, 0, taker);
    assert Execute(SHIPPED.assets, BTCBCH, x) == x;
    assert AfterMatch(DEPOSITED, 0, x).books == DEPOSITED.books;
    GridMul(PRICE, 8, SIZE, 8);
    OnGridFiner(DEAL, 16, 20);
    InvSound(SHIPPED, DEPOSITED);
    MoveChanges(SHIPPED.assets, DEPOSITED.balance, 2, "BCH", AVAILABLE, DEAL);
    PutFirst(taker);
  }

  lemma InvSound(c: Config, st: State)
    requires Inv(c, st)
    ensures Sound(c.assets, st.balance)
  {
  }

  lemma PutFirst(o: Order)
    ensures Insert([], o.(freeze := DEAL)) == [o.(freeze := DEAL)]
  {
  }

  /** A sale meets the one order of the book, uses it up, and pays the seller the deal less the fee. */
  lemma Sold(st: State)
    requires Inv(SHIPPED, st) && st.lastOrder == 1
    requires st.books == [Book([], [NewOrder(1, LIMIT, BID, 2, PRICE, SIZE, 0.0, 0.0).(freeze := DEAL)])]
    requires At(st.balance, Key(1, AVAILABLE, "BTC")) == 1.0 && At(st.balance, SELLER) == 0.0
    ensures BooksPriced(st)
    ensures At(Step(SHIPPED, st, SELL, LIVE).state.balance, SELLER) == KEPT
  {
    hide OnGrid, Truncate, Mul, Inv, Move, FillBalance, RoundUp, MatchOk, TakerOk;
    Literals();
    Setting();
    InvShape(SHIPPED, st);
    TruncateExact(SIZE, 8);
    TruncateExact(PRICE, 8);
    TruncateExact(RATE, 4);
    TruncateExact(0.0, 4);
    var taker := NewOrder(2, LIMIT, ASK, 1, PRICE, SIZE, RATE, 0.0);
    NewOrderOk(BTCBCH, 2, ASK, 1, PRICE, SIZE, RATE, 0.0);
    MatchStarts(SHIPPED, st, 0, taker);
    var x := StartMatch(st, 0, taker);
    SettleBoth(SHIPPED.assets, BTCBCH, x);
    RoundUpExact(FEE, 20);
    var y := Fill(SHIPPED.assets, BTCBCH, x);
    assert MakerAfter(x.makers[0], SIZE).left == 0.0;
    assert y.makers == [] && y.taker.left == 0.0;
    assert Execute(SHIPPED.assets, BTCBCH, x) == y;
    PaidSeller(x, y.balance);
  }

  lemma PaidSeller(x: Match, b: Balance)
    requires MarketOk(SHIPPED.assets, BTCBCH) && x.makers != [] && x.makers[0].price == PRICE && x.makers[0].user == 2
    requires BothSettled(SHIPPED.assets, BTCBCH, x, b) && TradeAmount(BTCBCH, x.taker, x.makers[0]) == SIZE
    requires x.taker.user == 1 && x.taker.side == ASK && x.taker.takerFee == RATE && At(x.balance, SELLER) == 0.0
    ensures At(b, SELLER) == KEPT
  {
    hide OnGrid, RoundUp, Mul, TradeAmount;
    Literals();
    RoundUpExact(FEE, 20);
    assert FeeOf(ASK, PRICE, SIZE, RATE) == FEE;
  }

  lemma SaleRun()
    ensures ConfigOk(SHIPPED) && AllAligned(SHIPPED, SALE) && Inv(SHIPPED, Reached(SHIPPED, SALE))
    ensures At(Reached(SHIPPED, SALE).balance, SELLER) == KEPT
  {
    hide Inv, Step, At;
    Setting();
    InitialInv(SHIPPED);
    Deposits();
    var s0 := InitialState(SHIPPED);
    var s1 := SafeStep(SHIPPED, s0, FUND_SELLER, LIVE).state;
    var s2 := SafeStep(SHIPPED, s1, FUND_BUYER, LIVE).state;
    Bought();
    var s3 := SafeStep(SHIPPED, s2, BUY, LIVE).state;
    Sold(s3);
    var s4 := SafeStep(SHIPPED, s3, SELL, LIVE).state;
    RunFour(SHIPPED, SALE, s0, s1, s2, s3, s4);
    ReachedInv(SHIPPED, SALE);
  }

  lemma RunFour(c: Config, events: seq<Event>, s0: State, s1: State, s2: State, s3: State, s4: State)
    requires |events| == 4 && AllAligned(c, events)
      && (forall i | 0 <= i < 4 :: events[i].Request? && Aligned(c, events[i].cmd))
    requires Inv(c, s0) && Inv(c, s1) && Inv(c, s2) && Inv(c, s3)
    requires s1 == SafeStep(c, s0, events[0].cmd, LIVE).state && s2 == SafeStep(c, s1, events[1].cmd, LIVE).state
    requires s3 == SafeStep(c, s2, events[2].cmd, LIVE).state && s4 == SafeStep(c, s3, events[3].cmd, LIVE).state
    ensures Run(c, s0, events).state == s4
  {
    hide Inv, Aligned, SafeStep, Run, AllAligned, Step, Conserves;
    assert events[0..] == events && events[4..] == [];
    RunNext(c, s0, events, 0, s1);
    RunNext(c, s1, events, 1, s2);
    RunNext(c, s2, events, 2, s3);
    RunNext(c, s3, events, 3, s4);
    RunNothing(c, s4);
  }

  lemma RunNext(c: Config, st: State, events: seq<Event>, i: nat, st': State)
    requires Inv(c, st) && AllAligned(c, events) && i < |events| && events[i].Request? && Aligned(c, events[i].cmd)
    requires st' == SafeStep(c, st, events[i].cmd, LIVE).state
    ensures AllAligned(c, events[i..]) && AllAligned(c, events[i + 1..])
    ensures Run(c, st, events[i..]).state == Run(c, st', events[i + 1..]).state
  {
    hide Inv, Step, Aligned, Conserves;
    assert events[i..][1..] == events[i + 1..];
  }

  lemma RunNothing(c: Config, st: State)
    requires Inv(c, st)
    ensures Run(c, st, []).state == st
  {
  }

  /** In the market BTCBCH as it is configured, a small sale with a fee of 0.0015 leaves the seller with twenty
    digits. Any slice of that engine rounds them up to sixteen, so the restored engine holds more money than
    the one that was dumped. */
  lemma SaleNotRestored(s: Slice)
    requires Inv(SHIPPED, Reached(SHIPPED, SALE)) && IsSlice(Reached(SHIPPED, SALE), s)
    ensures var st := Reached(SHIPPED, SALE);
      && At(st.balance, SELLER) == KEPT && !BalancesFit(st.balance)
      && At(Restore(SHIPPED, s).balance, SELLER) == ROUNDED && !StatesAlike(st, Restore(SHIPPED, s))
  {
    hide Inv, IsSlice, Reached, OnGrid, Restore, Column, StatesAlike;
    SaleRun();
    Literals();
    UnitValues();
    var st := Reached(SHIPPED, SALE);
    SliceRestores(SHIPPED, st, s);
    Setting();
    SchemaFits(SHIPPED, st);
    StoredAt(st.balance, SELLER);
    ColumnNearest(KEPT, 16);
    if Column(KEPT, 16) < ROUNDED { GridGap(Column(KEPT, 16), ROUNDED, 16); }
    if ROUNDED < Column(KEPT, 16) { GridGap(ROUNDED, Column(KEPT, 16), 16); }
    assert SELLER in st.balance;
  }

  // ----- A restart that stops

  const FINE: Config := Config(map["A" := AssetType(20, 20)], [])
  const DUST := 0.00000000000000003
  const OWNER: Key := Key(0, AVAILABLE, "A")
  const PAY_IN: Command := UpdateBalance(0, "A", "deposit", 1, DUST)
  const PAY_OUT: Command := UpdateBalance(0, "A", "withdraw", 1, -DUST)
  const DUSTY: seq<Item> := [Happens(Request(PAY_IN)), TakeSlice, Happens(Request(PAY_OUT)), Flush]

  const PAID_IN: State := State(map[OWNER := DUST], [], 0, 0, {KeyOf(PAY_IN)})
  const PAID_OUT: State := State(map[], [], 0, 0, {KeyOf(PAY_IN), KeyOf(PAY_OUT)})

  lemma Dust()
    ensures OnGrid(DUST, 20) && OnGrid(-DUST, 20) && Column(DUST, 16) == 0.0
  {
    hide OnGrid, Column;
    UnitValues();
    UnitsOnGrid(3000, 20, DUST);
    OnGridNegate(DUST, 20);
    ColumnNearest(DUST, 16);
    OnGridZero(16);
    if 0.0 < Column(DUST, 16) { GridGap(0.0, Column(DUST, 16), 16); }
  }

  lemma DustSteps()
    ensures BooksPriced(InitialState(FINE)) && BooksPriced(PAID_IN)
    ensures Step(FINE, InitialState(FINE), PAY_IN, LIVE) == Result(PAID_IN, Done, [])
    ensures Step(FINE, PAID_IN, PAY_OUT, LIVE) == Result(PAID_OUT, Done, [])
    ensures Restarted(PAID_IN) == State(map[], [], 0, 0, {})
    ensures Step(FINE, Restarted(PAID_IN), PAY_OUT, REPLAY).reply == BalanceNotEnough
  {
    hide OnGrid, Truncate, Column;
    Dust();
    OnGridZero(20);
    TruncateExact(0.0, 20);
    TruncateExact(DUST, 20);
    TruncateExact(-DUST, 20);
    assert InitialState(FINE).books == [];
  }

  /** With twenty digits shown, a deposit of 3000 units is rounded away by the slice; the withdrawal of it is in
    the log, its replay fails, and the server does not start again, though no update key repeats. */
  lemma RoundingStopsRestart()
    ensures ConfigOk(FINE) && FitsSchema(FINE) && ItemsAligned(FINE, DUSTY) && ItemsAligned(FINE, DUSTY + [Crash])
      && WorldOk(FINE, Start(FINE))
    ensures Play(FINE, Start(FINE), DUSTY) == Some(World(PAID_OUT, [PAY_IN, PAY_OUT], 2, true, PAID_IN, 1, 0))
    ensures NoRepeat([PAY_IN, PAY_OUT], {}) && Play(FINE, Start(FINE), DUSTY + [Crash]) == None
  {
    hide Inv, Step, Restarted;
    StartOk(FINE);
    DustSteps();
    var w0 := Start(FINE);
    var w1 := World(PAID_IN, [PAY_IN], 0, false, InitialState(FINE), 0, 0);
    var w2 := World(PAID_IN, [PAY_IN], 0, true, PAID_IN, 1, 0);
    var w3 := World(PAID_OUT, [PAY_IN, PAY_OUT], 0, true, PAID_IN, 1, 0);
    var w4 := World(PAID_OUT, [PAY_IN, PAY_OUT], 2, true, PAID_IN, 1, 0);
    assert Next(FINE, w0, DUSTY[0]) == Some(w1) by { assert [] + [PAY_IN] == [PAY_IN]; }
    assert Next(FINE, w1, DUSTY[1]) == Some(w2);
    assert Next(FINE, w2, DUSTY[2]) == Some(w3) by { assert [PAY_IN] + [PAY_OUT] == [PAY_IN, PAY_OUT]; }
    assert Next(FINE, w3, DUSTY[3]) == Some(w4);
    assert Survivors(w4)[1..] == [PAY_OUT];
    assert Next(FINE, w4, Crash) == None by { RestartStops(w4); }
    PlayFour(DUSTY, w0, w1, w2, w3, w4, []);
    PlayFour(DUSTY, w0, w1, w2, w3, w4, [Crash]);
    assert DUSTY + [] == DUSTY;
  }

  lemma RestartStops(w: World)
    requires WorldOk(FINE, w) && w.hasSlice && w.sliced == PAID_IN && Survivors(w)[w.mark..] == [PAY_OUT]
    ensures Next(FINE, w, Crash) == None
  {
    hide Inv, Step, Restarted;
    DustSteps();
    SchemaFits(FINE, PAID_IN);
    RestartedInv(FINE, PAID_IN);
  }

  lemma PlayFirst(w: World, v: World, item: Item, more: seq<Item>)
    requires WorldOk(FINE, w) && ItemAligned(FINE, item) && ItemsAligned(FINE, more) && Next(FINE, w, item) == Some(v)
    ensures WorldOk(FINE, v) && ItemsAligned(FINE, [item] + more) && Play(FINE, w, [item] + more) == Play(FINE, v, more)
  {
    hide Next, WorldOk, ItemAligned;
    assert ([item] + more)[1..] == more;
  }

  // ----- A restart without a slice

  const NIGHT: seq<Item> := [Happens(Request(PAY_IN)), Flush, Midnight, Crash]

  /** A server that has no slice yet and stops after midnight starts from nothing, though the deposit is in the log
    table of the day before. */
  lemma NightForgets()
    ensures ConfigOk(FINE) && FitsSchema(FINE) && WorldOk(FINE, Start(FINE)) && ItemsAligned(FINE, NIGHT)
    ensures Play(FINE, Start(FINE), NIGHT[..1]).Some?
    ensures Play(FINE, Start(FINE), NIGHT[..1]).value.engine.balance == map[OWNER := DUST]
    ensures Play(FINE, Start(FINE), NIGHT) == Some(Start(FINE))
  {
    hide Inv, Step, Restarted, Recovered;
    StartOk(FINE);
    DustSteps();
    var w0 := Start(FINE);
    var w1 := World(PAID_IN, [PAY_IN], 0, false, InitialState(FINE), 0, 0);
    var w2 := World(PAID_IN, [PAY_IN], 1, false, InitialState(FINE), 0, 0);
    var w3 := World(PAID_IN, [PAY_IN], 1, false, InitialState(FINE), 0, 1);
    assert Next(FINE, w0, NIGHT[0]) == Some(w1) by { assert [] + [PAY_IN] == [PAY_IN]; }
    assert Next(FINE, w1, NIGHT[1]) == Some(w2);
    assert Next(FINE, w2, NIGHT[2]) == Some(w3);
    assert Next(FINE, w3, NIGHT[3]) == Some(w0);
    PlayFirst(w0, w1, NIGHT[0], []);
    assert [NIGHT[0]] + [] == NIGHT[..1];
    PlayFour(NIGHT, w0, w1, w2, w3, w0, []);
    assert NIGHT + [] == NIGHT;
  }

  lemma PlayFour(items: seq<Item>, w0: World, w1: World, w2: World, w3: World, w4: World, more: seq<Item>)
    requires WorldOk(FINE, w0) && |items| == 4 && ItemsAligned(FINE, items + more)
    requires ItemAligned(FINE, items[0]) && Next(FINE, w0, items[0]) == Some(w1)
    requires WorldOk(FINE, w1) && ItemAligned(FINE, items[1]) && Next(FINE, w1, items[1]) == Some(w2)
    requires WorldOk(FINE, w2) && ItemAligned(FINE, items[2]) && Next(FINE, w2, items[2]) == Some(w3)
    requires WorldOk(FINE, w3) && ItemAligned(FINE, items[3]) && Next(FINE, w3, items[3]) == Some(w4)
    ensures WorldOk(FINE, w4) && ItemsAligned(FINE, more) && Play(FINE, w0, items + more) == Play(FINE, w4, more)
  {
    hide Next, WorldOk, ItemAligned, Play;
    forall item | item in more ensures ItemAligned(FINE, item) { assert item in items + more; }
    PlayFirst(w3, w4, items[3], more);
    PlayFirst(w2, w3, items[2], [items[3]] + more);
    PlayFirst(w1, w2, items[1], [items[2]] + ([items[3]] + more));
    PlayFirst(w0, w1, items[0], [items[1]] + ([items[2]] + ([items[3]] + more)));
    assert [items[0]] + ([items[1]] + ([items[2]] + ([items[3]] + more))) == items + more;
  }
}
