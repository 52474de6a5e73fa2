/** Over whole runs: which command every open order and every deal comes from, what became of every order, and what
  every user holds. */
module Origins {
  import opened Decimal
  import opened Balances
  import opened Orders
  import opened Matching
  import opened Execution
  import opened Priority
  import opened EngineSpec
  import opened EngineInvariant
  import opened EngineRuns
  import opened Outcomes

  /** The order commands of a log. The engine numbers them from 1. */
  function OrdersOf(log: seq<Command>): seq<Command> {
    if log == [] then []
    else (if log[0].LimitOrder? || log[0].MarketOrder? then [log[0]] else []) + OrdersOf(log[1..])
  }

  lemma {:induction false} OrdersOfAppend(x: seq<Command>, y: seq<Command>)
    ensures OrdersOf(x + y) == OrdersOf(x) + OrdersOf(y)
  {
    if x == [] {
      assert x + y == y;
    } else {
      OrdersOfAppend(x[1..], y);
      assert (x + y)[1..] == x[1..] + y;
    }
  }

  // ----- Open orders

  /** An open order of this market carries the numbers of its command. */
  ghost predicate EnteredAs(c: Config, i: nat, o: Order, cmd: Command) {
    && cmd.LimitOrder? && cmd.market == i < |c.markets|
    && var m := c.markets[i];
      && o.kind == LIMIT && o.user == cmd.user && o.side == cmd.side
      && o.price == Parse(cmd.price, m.moneyPrec) && o.amount == Parse(cmd.amount, m.stockPrec)
      && o.takerFee == Parse(cmd.takerFee, m.feePrec) && o.makerFee == Parse(cmd.makerFee, m.feePrec)
  }

  /** `cmds` are the order commands so far; every open order has the place of its command for its id. */
  ghost predicate Entered(c: Config, st: State, cmds: seq<Command>) {
    && |cmds| == st.lastOrder
    && forall i, o | 0 <= i < |st.books| && Open(st.books[i], o) ::
      1 <= o.id <= |cmds| && EnteredAs(c, i, o, cmds[o.id - 1])
  }

  // ----- Deals

  function TakerId(d: Deal): OrderId {
    if d.takerSide == ASK then d.ask else d.bid
  }

  /** Two commands of a market explain a deal: the older one, a limit order of the other side, gives the price, which
    the newer one agrees to; each party is the user of its command, and is charged at the rate that its command gives
    for its part. */
  ghost predicate Explained(c: Config, d: Deal, cmds: seq<Command>) {
    var t, k := TakerId(d), MakerId(d, d.takerSide);
    && 1 <= k < t <= |cmds|
    && var taker, maker := cmds[t - 1], cmds[k - 1];
      && IsOrder(c, taker) && IsOrder(c, maker) && maker.LimitOrder? && maker.market == taker.market
      && d.takerSide == taker.side == Opposite(maker.side)
      && var m := c.markets[taker.market];
        && d.price == Parse(maker.price, m.moneyPrec) && Agrees(c, taker, d.price)
        && d.amount > 0.0 && OnGrid(d.amount, m.stockPrec)
        && TakenFrom(m, d, taker.side, Party(t, taker.user, Parse(taker.takerFee, m.feePrec)),
                     Party(k, maker.user, Parse(maker.makerFee, m.feePrec)))
  }

  // ----- One command

  /** What an accepted live command appends to the order commands. */
  function NewOrders(cmd: Command, reply: Reply): seq<Command> {
    if reply == Done then OrdersOf([cmd]) else []
  }

  lemma OneOrder(cmd: Command)
    ensures OrdersOf([cmd]) == if cmd.LimitOrder? || cmd.MarketOrder? then [cmd] else []
  {
    assert [cmd][1..] == [];
  }

  /** The new deals are explained by the new command and by the commands of the orders that were open. */
  lemma OrderExplained(c: Config, st: State, cmd: Command, cmds: seq<Command>)
    requires Ready(c, st, cmd) && IsOrder(c, cmd) && Step(c, st, cmd, LIVE).reply == Done && Entered(c, st, cmds)
    ensures forall d | d in Step(c, st, cmd, LIVE).deals :: Explained(c, d, cmds + [cmd])
  {
    hide Inv, Step, OnGrid, Parse, DealBetween;
    OrderDeals(c, st, cmd, LIVE);
    var r, m := Step(c, st, cmd, LIVE), c.markets[cmd.market];
    var makers := SideOf(st.books[cmd.market], Opposite(cmd.side));
    forall d | d in r.deals ensures Explained(c, d, cmds + [cmd]) {
      var k :| 0 <= k < |r.deals| && r.deals[k] == d;
      MakerEntered(c, st, cmd, cmds, makers[k]);
      TakenIds(m, d, cmd.side, TakerParty(c, st, cmd), MakerParty(makers[k]));
    }
  }

  lemma MakerEntered(c: Config, st: State, cmd: Command, cmds: seq<Command>, o: Order)
    requires Ready(c, st, cmd) && IsOrder(c, cmd) && Entered(c, st, cmds)
    requires o in SideOf(st.books[cmd.market], Opposite(cmd.side))
    ensures 1 <= o.id <= |cmds| && EnteredAs(c, cmd.market, o, cmds[o.id - 1]) && o.side == Opposite(cmd.side)
  {
    hide EnteredAs, Sound, IdsOk, FrozenIsLocked, LimitOk, Sorted, Uncrossed, BooksPriced;
    assert Open(st.books[cmd.market], o);
    assert BookOk(c.markets[cmd.market], st.books[cmd.market]);
    assert Resting(c.markets[cmd.market], o, Opposite(cmd.side));
  }

  lemma TakenIds(m: Market, d: Deal, side: Side, taker: Party, maker: Party)
    requires TakenFrom(m, d, side, taker, maker)
    ensures d.takerSide == side && TakerId(d) == taker.order && MakerId(d, d.takerSide) == maker.order
  {
  }

  /** Each order that is open after an order command was open before it, but for its record, or is the rest of it. */
  lemma OrderEnters(c: Config, st: State, cmd: Command, cmds: seq<Command>)
    requires Ready(c, st, cmd) && IsOrder(c, cmd) && Step(c, st, cmd, LIVE).reply == Done && Entered(c, st, cmds)
    ensures Entered(c, Step(c, st, cmd, LIVE).state, cmds + [cmd])
  {
    hide Inv, Step, Parse, SumAmount, SumMoney, SumFee, EnteredAs, RestOf, BooksPriced;
    OrderDeals(c, st, cmd, LIVE);
    OrderBooks(c, st, cmd, LIVE);
    var r, i := Step(c, st, cmd, LIVE), cmd.market;
    forall j, o | 0 <= j < |r.state.books| && Open(r.state.books[j], o)
      ensures 1 <= o.id <= |cmds| + 1 && EnteredAs(c, j, o, (cmds + [cmd])[o.id - 1])
    {
      if j != i {
        assert Open(st.books[j], o);
      } else {
        OpenAfter(c, st, cmd, o);
        if cmd.LimitOrder? && Rests(c, cmd, r.deals) && o == RestOf(c, st, cmd, r.deals) {
          RestEnters(c, st, cmd, r.deals);
        } else {
          var p :| Open(st.books[i], p) && SameOrder(o, p);
          EnteredLike(c, i, o, p, cmds[p.id - 1]);
        }
      }
    }
  }

  lemma EnteredLike(c: Config, i: nat, a: Order, b: Order, cmd: Command)
    requires SameOrder(a, b) && EnteredAs(c, i, b, cmd)
    ensures EnteredAs(c, i, a, cmd)
  {
    hide Parse;
  }

  lemma RestEnters(c: Config, st: State, cmd: Command, d: seq<Deal>)
    requires IsOrder(c, cmd) && cmd.LimitOrder?
    ensures EnteredAs(c, cmd.market, RestOf(c, st, cmd, d), cmd) && RestOf(c, st, cmd, d).id == st.lastOrder + 1
  {
    hide Parse, SumAmount, SumMoney, SumFee;
  }

  lemma OpenAfter(c: Config, st: State, cmd: Command, o: Order)
    requires Ready(c, st, cmd) && IsOrder(c, cmd) && Step(c, st, cmd, LIVE).reply == Done
    requires var books := Step(c, st, cmd, LIVE).state.books; cmd.market < |books| && Open(books[cmd.market], o)
    ensures var d := Step(c, st, cmd, LIVE).deals;
      || (Rests(c, cmd, d) && o == RestOf(c, st, cmd, d))
      || exists p :: Open(st.books[cmd.market], p) && SameOrder(o, p)
  {
    hide Inv, Step, Rests, RestOf, BooksPriced;
    OrderBooks(c, st, cmd, LIVE);
    var d, i := Step(c, st, cmd, LIVE).deals, cmd.market;
    var b, b' := st.books[i], Step(c, st, cmd, LIVE).state.books[i];
    var makers := SideOf(b, Opposite(cmd.side));
    if o in SideOf(b', Opposite(cmd.side)) {
      var n := |d|;
      if o in makers[n..] {
        assert Open(b, o) && SameOrder(o, o);
      } else {
        assert Open(b, makers[n - 1]) && SameOrder(o, makers[n - 1]);
      }
    } else if o in SideOf(b, cmd.side) {
      assert Open(b, o) && SameOrder(o, o);
    }
  }

  lemma StepOrigins(c: Config, st: State, cmd: Command, cmds: seq<Command>)
    requires Ready(c, st, cmd) && Entered(c, st, cmds)
    ensures var r := Step(c, st, cmd, LIVE);
      && Entered(c, r.state, cmds + NewOrders(cmd, r.reply))
      && r.state.lastDeal == st.lastDeal + |r.deals|
      && forall k | 0 <= k < |r.deals| ::
        r.deals[k].id == st.lastDeal + 1 + k && Explained(c, r.deals[k], cmds + NewOrders(cmd, r.reply))
  {
    hide Inv, Step, Parse, EnteredAs, Explained, OrdersOf, Aligned, BooksPriced, TakenFrom, Agrees;
    var r := Step(c, st, cmd, LIVE);
    OneOrder(cmd);
    assert cmds + [] == cmds;
    if IsOrder(c, cmd) && r.reply == Done {
      OrderDeals(c, st, cmd, LIVE);
      OrderExplained(c, st, cmd, cmds);
      OrderEnters(c, st, cmd, cmds);
    } else {
      NoNewOrder(c, st, cmd);
      assert |r.state.books| == |st.books|;
    }
  }

  /** Any other command leaves no order open that was not open before, and makes no deal. */
  lemma NoNewOrder(c: Config, st: State, cmd: Command)
    requires Ready(c, st, cmd) && (IsOrder(c, cmd) ==> Step(c, st, cmd, LIVE).reply != Done)
    ensures var r := Step(c, st, cmd, LIVE);
      && r.deals == [] && r.state.lastOrder == st.lastOrder && r.state.lastDeal == st.lastDeal
      && |r.state.books| == |st.books|
      && (forall i, o | 0 <= i < |st.books| && Open(r.state.books[i], o) :: Open(st.books[i], o))
      && (cmd.LimitOrder? || cmd.MarketOrder? ==> r.reply != Done)
  {
    hide Inv, Step, Parse, IdsOk, FrozenIsLocked, Aligned, BooksPriced;
    match cmd
    case UpdateBalance(_, asset, _, _, _) =>
      OnlyOrdersDeal(c, st, cmd);
      if asset in c.assets { UpdateOutcome(c, st, cmd, LIVE); } else { UnknownReplies(c, st, cmd, LIVE); }
    case CancelOrder(user, i, id) =>
      OnlyOrdersDeal(c, st, cmd);
      if i >= |c.markets| { UnknownReplies(c, st, cmd, LIVE); } else {
        CancelReplies(c, st, cmd, LIVE);
        if Step(c, st, cmd, LIVE).reply == Done {
          var o :| Open(st.books[i], o) && o.id == id;
          CancelEffect(c, st, cmd, LIVE, o, Key(o.user, AVAILABLE, ""));
        }
      }
    case LimitOrder(_, i, _, _, _, _, _) =>
      if i >= |c.markets| { UnknownReplies(c, st, cmd, LIVE); } else { LimitReplies(c, st, cmd, LIVE); }
    case MarketOrder(_, i, _, _, _) =>
      if i >= |c.markets| { UnknownReplies(c, st, cmd, LIVE); } else { MarketReplies(c, st, cmd, LIVE); }
  }

  lemma OnlyOrdersDeal(c: Config, st: State, cmd: Command)
    requires |c.markets| == |st.books| && BooksPriced(st)
    ensures cmd.CancelOrder? || cmd.UpdateBalance? ==> Step(c, st, cmd, LIVE).deals == []
  {
    hide PutLimit, PutMarket, Parse, Add, Sub, FindOrder, OrderFinish, BooksPriced;
  }

  // ----- Runs

  /** In every reachable state each open order has the market, the user, the side, the price, the amount and both fee
    rates of its own command, which is the one that its id counts; and each deal is explained by the two commands
    of its orders. Deals are numbered one after the other. */
  lemma {:induction false} RunOrigins(c: Config, st: State, events: seq<Event>, cmds: seq<Command>)
    requires Inv(c, st) && AllAligned(c, events) && Entered(c, st, cmds)
    ensures var r := Run(c, st, events); var all := cmds + OrdersOf(r.log);
      && Entered(c, r.state, all)
      && r.state.lastDeal == st.lastDeal + |r.deals|
      && forall k | 0 <= k < |r.deals| :: r.deals[k].id == st.lastDeal + 1 + k && Explained(c, r.deals[k], all)
    decreases |events|
  {
    hide Inv, Step, Aligned, Entered, Explained, OrdersOf, Conserves;
    if events == [] {
      assert OrdersOf([]) == [] by { OrdersOfNone(); }
      assert cmds + [] == cmds;
    } else {
      var r := Happen(c, st, events[0]);
      var rest := Run(c, r.state, events[1..]);
      var sofar := cmds + OrdersOf(r.log);
      HappenOrigins(c, st, events[0], cmds);
      RunOrigins(c, r.state, events[1..], sofar);
      OrdersOfAppend(r.log, rest.log);
      var all := sofar + OrdersOf(rest.log);
      assert all == cmds + OrdersOf(r.log + rest.log);
      forall k | 0 <= k < |r.deals| ensures Explained(c, r.deals[k], all) {
        ExplainedStill(c, r.deals[k], sofar, OrdersOf(rest.log));
      }
    }
  }

  lemma OrdersOfNone()
    ensures OrdersOf([]) == []
  {
  }

  lemma HappenOrigins(c: Config, st: State, e: Event, cmds: seq<Command>)
    requires Inv(c, st) && (e.Request? ==> Aligned(c, e.cmd)) && Entered(c, st, cmds)
    ensures var r := Happen(c, st, e); var all := cmds + OrdersOf(r.log);
      && Entered(c, r.state, all) && r.state.lastDeal == st.lastDeal + |r.deals|
      && forall k | 0 <= k < |r.deals| :: r.deals[k].id == st.lastDeal + 1 + k && Explained(c, r.deals[k], all)
  {
    hide Inv, Step, Aligned, EnteredAs, Explained, OrdersOf, Conserves, BooksPriced;
    OrdersOfNone();
    assert cmds + [] == cmds;
    if e.Request? {
      InvShape(c, st);
      StepOrigins(c, st, e.cmd, cmds);
    }
  }

  /** Later commands change nothing about a deal. */
  lemma ExplainedStill(c: Config, d: Deal, cmds: seq<Command>, more: seq<Command>)
    requires Explained(c, d, cmds)
    ensures Explained(c, d, cmds + more)
  {
    hide Parse, OnGrid, TakenFrom;
  }

  lemma NothingEntered(c: Config)
    ensures Entered(c, InitialState(c), OrdersOf([])) && OrdersOf([]) == []
  {
    hide EnteredAs;
    var books := InitialState(c).books;
    assert forall i, o | 0 <= i < |books| :: !Open(books[i], o);
  }

  /** From the empty engine: every open order and every deal comes from the accepted order commands, and the deals are
    numbered from 1. */
  lemma ReachedOrigins(c: Config, events: seq<Event>)
    requires ConfigOk(c) && AllAligned(c, events)
    ensures Inv(c, InitialState(c))
    ensures var r := Run(c, InitialState(c), events);
      && Entered(c, r.state, OrdersOf(r.log))
      && forall k | 0 <= k < |r.deals| :: r.deals[k].id == k + 1 && Explained(c, r.deals[k], OrdersOf(r.log))
  {
    hide Inv, Run, Entered, Explained, OrdersOf;
    InitialInv(c);
    NothingEntered(c);
    RunOrigins(c, InitialState(c), events, []);
    var all := OrdersOf(Run(c, InitialState(c), events).log);
    assert [] + all == all;
  }
}
