/** What became of every order of a run: filled, cancelled by its own user, or open with exactly the rest. */
module Fates {
  import opened Decimal
  import opened Balances
  import opened Orders
  import opened Matching
  import opened Priority
  import opened EngineSpec
  import opened EngineInvariant
  import opened EngineRuns
  import opened Records
  import opened Outcomes
  import opened Origins

  /** No order trades more than its amount, which is money for a market buy and stock for every other order. A limit
    order has traded all of it, or its user has cancelled it, or it is open with what it has not traded. */
  ghost predicate Fate(c: Config, st: State, cmd: Command, id: OrderId, log: seq<Command>, deals: seq<Deal>)
    requires IsOrder(c, cmd)
  {
    var t := TallyOf(c.assets, deals, id);
    if SpendsMoney(cmd) then t.money <= AmountOf(c, cmd)
    else
      && t.stock <= AmountOf(c, cmd)
      && (cmd.LimitOrder? ==>
        || t.stock == AmountOf(c, cmd)
        || CancelOrder(cmd.user, cmd.market, id) in log
        || OpenWith(st, cmd.market, id, AmountOf(c, cmd) - t.stock))
  }

  ghost predicate OpenWith(st: State, i: nat, id: OrderId, left: Dec) {
    i < |st.books| && exists o :: Open(st.books[i], o) && o.id == id && o.left == left
  }

  // ----- What deals add up to

  /** An order that has a part in one of some deals. */
  lemma TallyOnce(assets: Assets, deals: seq<Deal>, d: seq<Deal>, k: nat, id: OrderId)
    requires k < |d| && Involves(d[k], id) && forall j | 0 <= j < |d| && j != k :: !Involves(d[j], id)
    ensures var s, t := TallyOf(assets, deals, id), TallyOf(assets, deals + d, id);
      t.stock == s.stock + d[k].amount && t.money == s.money + d[k].price * d[k].amount
  {
    hide Involves, Count, TallyOf;
    TallyApart(assets, deals, d[..k], id);
    TallyNext(assets, deals + d[..k], d[k], id);
    TallyApart(assets, deals + d[..k] + [d[k]], d[k + 1..], id);
    assert deals + d == deals + d[..k] + [d[k]] + d[k + 1..];
    TallyCounts(assets, TallyOf(assets, deals, id), d[k], id);
  }

  lemma TallyCounts(assets: Assets, t: Tally, d: Deal, id: OrderId)
    requires Involves(d, id)
    ensures Count(assets, t, d, id).stock == t.stock + d.amount
      && Count(assets, t, d, id).money == t.money + d.price * d.amount
  {
    hide RoundUp;
  }

  /** The deals of a new order add up, for its id, to their sums. */
  lemma TakerTally(c: Config, st: State, cmd: Command, deals: seq<Deal>)
    requires Ready(c, st, cmd) && IsOrder(c, cmd) && Step(c, st, cmd, LIVE).reply == Done
      && StateRecorded(c, st, deals)
    ensures var d := Step(c, st, cmd, LIVE).deals;
      var t := TallyOf(c.assets, deals + d, st.lastOrder + 1);
      t.stock == SumAmount(d) && t.money == SumMoney(d)
  {
    hide Inv, Step, Execute, MatchOk, TakerOk, Budget, Parse, SumAmount, SumMoney, SumFee, StateRecorded, TallyOf,
      BooksPriced, Stops, Aligned;
    Accepted(c, st, cmd, LIVE);
    TakerBare(c, st, cmd);
    MatchRecords(c, st, cmd.market, TakerOf(c, st, cmd), deals);
    MatchVolume(c.assets, c.markets[cmd.market], MatchOf(c, st, cmd));
  }

  lemma TakerBare(c: Config, st: State, cmd: Command)
    requires IsOrder(c, cmd)
    ensures var o := TakerOf(c, st, cmd);
      o.dealStock == 0.0 && o.dealMoney == 0.0 && o.dealFee == 0.0 && o.id == st.lastOrder + 1
        && o.left == AmountOf(c, cmd)
  {
    hide Parse;
  }

  // ----- One command

  lemma FateNew(c: Config, st: State, cmd: Command, log: seq<Command>, deals: seq<Deal>)
    requires Ready(c, st, cmd) && IsOrder(c, cmd) && Step(c, st, cmd, LIVE).reply == Done
      && StateRecorded(c, st, deals)
    ensures var r := Step(c, st, cmd, LIVE); Fate(c, r.state, cmd, st.lastOrder + 1, log, deals + r.deals)
  {
    hide Inv, Step, Parse, SumAmount, SumMoney, SumFee, StateRecorded, TallyOf, BooksPriced, Aligned, Agrees;
    TakerTally(c, st, cmd, deals);
    OrderVolume(c, st, cmd, LIVE);
    OrderBooks(c, st, cmd, LIVE);
    var r := Step(c, st, cmd, LIVE);
    if Rests(c, cmd, r.deals) {
      var o := RestOf(c, st, cmd, r.deals);
      assert o in SideOf(r.state.books[cmd.market], cmd.side);
      assert Open(r.state.books[cmd.market], o) && o.id == st.lastOrder + 1;
    }
  }

  /** An open order that a new order does not trade with stays as it is. */
  lemma NotTraded(c: Config, st: State, cmd: Command, i: nat, o: Order, deals: seq<Deal>)
    requires Ready(c, st, cmd) && IsOrder(c, cmd) && Step(c, st, cmd, LIVE).reply == Done
      && StateRecorded(c, st, deals) && i < |st.books| && Open(st.books[i], o)
    requires var d := Step(c, st, cmd, LIVE).deals; forall k | 0 <= k < |d| :: !Involves(d[k], o.id)
    ensures var r := Step(c, st, cmd, LIVE); i < |r.state.books| && Open(r.state.books[i], o)
  {
    hide Inv, Step, Parse, SumAmount, SumMoney, SumFee, StateRecorded, BooksPriced, Aligned, RestOf, Rests, Agrees;
    OrderBooks(c, st, cmd, LIVE);
    OrderDeals(c, st, cmd, LIVE);
    var r, makers := Step(c, st, cmd, LIVE), SideOf(st.books[cmd.market], Opposite(cmd.side));
    if i == cmd.market && o in makers {
      var k :| 0 <= k < |makers| && makers[k] == o;
      if k < |r.deals| {
        InvolvesMaker(c.markets[i], r.deals[k], cmd.side, TakerParty(c, st, cmd), MakerParty(makers[k]));
      } else {
        assert makers[|r.deals|..][k - |r.deals|] == o;
      }
    }
  }

  lemma InvolvesMaker(m: Market, d: Deal, side: Side, taker: Party, maker: Party)
    requires TakenFrom(m, d, side, taker, maker)
    ensures forall id :: Involves(d, id) <==> id == taker.order || id == maker.order
  {
  }

  /** Of the deals of a new order at most one is with an order that was open. */
  lemma OneDealEach(c: Config, st: State, cmd: Command, id: OrderId, k: nat)
    requires Ready(c, st, cmd) && IsOrder(c, cmd) && Step(c, st, cmd, LIVE).reply == Done && id <= st.lastOrder
    requires k < |Step(c, st, cmd, LIVE).deals| && Involves(Step(c, st, cmd, LIVE).deals[k], id)
    ensures var r, makers := Step(c, st, cmd, LIVE), SideOf(st.books[cmd.market], Opposite(cmd.side));
      && |r.deals| <= |makers| && makers[k].id == id
      && forall j | 0 <= j < |r.deals| && j != k :: !Involves(r.deals[j], id)
  {
    hide Step, Parse, BooksPriced, Aligned, Agrees, Sound, IdsOk, FrozenIsLocked, OnGrid, TakenFrom, Involves, Resting,
      Sorted, Uncrossed;
    OrderDeals(c, st, cmd, LIVE);
    var i, d, makers :=
      cmd.market, Step(c, st, cmd, LIVE).deals, SideOf(st.books[cmd.market], Opposite(cmd.side));
    assert BookOk(c.markets[i], st.books[i]);
    DistinctIds(makers);
    InvolvesMaker(c.markets[i], d[k], cmd.side, TakerParty(c, st, cmd), MakerParty(makers[k]));
    forall j | 0 <= j < |d| && j != k ensures !Involves(d[j], id) {
      InvolvesMaker(c.markets[i], d[j], cmd.side, TakerParty(c, st, cmd), MakerParty(makers[j]));
    }
  }

  /** An order that is made to trade is used up, or stays open with what is left. */
  lemma Traded(c: Config, st: State, cmd: Command, k: nat)
    requires Ready(c, st, cmd) && IsOrder(c, cmd) && Step(c, st, cmd, LIVE).reply == Done
    requires k < |Step(c, st, cmd, LIVE).deals| <= |SideOf(st.books[cmd.market], Opposite(cmd.side))|
    ensures var r, o := Step(c, st, cmd, LIVE), SideOf(st.books[cmd.market], Opposite(cmd.side))[k];
      r.deals[k].amount <= o.left
      && (r.deals[k].amount < o.left ==> OpenWith(r.state, cmd.market, o.id, o.left - r.deals[k].amount))
  {
    hide Inv, Step, Parse, BooksPriced, Aligned, Agrees, OnGrid, TakenFrom, Rests, RestOf;
    OrderDeals(c, st, cmd, LIVE);
    OrderBooks(c, st, cmd, LIVE);
    var r, makers := Step(c, st, cmd, LIVE), SideOf(st.books[cmd.market], Opposite(cmd.side));
    if r.deals[k].amount < makers[k].left {
      var o := Reduced(makers[k], r.deals[k]);
      assert SideOf(r.state.books[cmd.market], Opposite(cmd.side))[0] == o;
      assert Open(r.state.books[cmd.market], o);
    }
  }

  /** The fate of an older order after a new one. */
  lemma FateOrder(c: Config, st: State, cmd: Command, prior: Command, id: OrderId, log: seq<Command>, deals: seq<Deal>,
          cmds: seq<Command>)
    requires Ready(c, st, cmd) && IsOrder(c, cmd) && Step(c, st, cmd, LIVE).reply == Done
      && StateRecorded(c, st, deals) && Entered(c, st, cmds)
    requires 1 <= id <= |cmds| && prior == cmds[id - 1] && IsOrder(c, prior) && Fate(c, st, prior, id, log, deals)
    ensures var r := Step(c, st, cmd, LIVE); Fate(c, r.state, prior, id, log, deals + r.deals)
  {
    hide Inv, Step, Parse, BooksPriced, Aligned, TallyOf, StateRecorded, Involves;
    var r := Step(c, st, cmd, LIVE);
    if k :| 0 <= k < |r.deals| && Involves(r.deals[k], id) {
      OneDealEach(c, st, cmd, id, k);
      TallyOnce(c.assets, deals, r.deals, k, id);
      Traded(c, st, cmd, k);
      MakerTally(c, st, cmd, cmds, deals, SideOf(st.books[cmd.market], Opposite(cmd.side))[k]);
    } else {
      TallyApart(c.assets, deals, r.deals, id);
      var left := AmountOf(c, prior) - TallyOf(c.assets, deals, id).stock;
      if OpenWith(st, prior.market, id, left) {
        var o :| Open(st.books[prior.market], o) && o.id == id && o.left == left;
        NotTraded(c, st, cmd, prior.market, o, deals);
      }
    }
  }

  /** What an order that rests has traded and what it has left make up the amount of its command. */
  lemma MakerTally(c: Config, st: State, cmd: Command, cmds: seq<Command>, deals: seq<Deal>, o: Order)
    requires Ready(c, st, cmd) && IsOrder(c, cmd) && StateRecorded(c, st, deals) && Entered(c, st, cmds)
    requires o in SideOf(st.books[cmd.market], Opposite(cmd.side))
    ensures 1 <= o.id <= |cmds| && EnteredAs(c, cmd.market, o, cmds[o.id - 1])
    ensures TallyOf(c.assets, deals, o.id).stock + o.left
      == Parse(cmds[o.id - 1].amount, c.markets[cmd.market].stockPrec)
  {
    hide Sound, IdsOk, FrozenIsLocked, TallyOf, FeesOk, TradedOk, OnGrid, Sorted, Uncrossed, BooksPriced, Aligned,
      Parse;
    MakerEntered(c, st, cmd, cmds, o);
    assert BookOk(c.markets[cmd.market], st.books[cmd.market]);
    assert Resting(c.markets[cmd.market], o, Opposite(cmd.side));
    assert SideRecorded(c.assets, SideOf(st.books[cmd.market], Opposite(cmd.side)), deals);
  }

  /** The fate of an order after a command that is no accepted order. */
  lemma FateOther(c: Config, st: State, cmd: Command, prior: Command, id: OrderId, log: seq<Command>, deals: seq<Deal>,
          cmds: seq<Command>)
    requires Ready(c, st, cmd) && (IsOrder(c, cmd) ==> Step(c, st, cmd, LIVE).reply != Done) && Entered(c, st, cmds)
    requires 1 <= id <= |cmds| && prior == cmds[id - 1] && IsOrder(c, prior) && Fate(c, st, prior, id, log, deals)
    ensures var r := Step(c, st, cmd, LIVE);
      Fate(c, r.state, prior, id, log + (if r.reply == Done then [cmd] else []), deals)
  {
    hide Inv, Step, Parse, BooksPriced, Aligned, TallyOf, EnteredAs, Open;
    var r := Step(c, st, cmd, LIVE);
    StepKeeps(c, st, cmd, LIVE);
    var left := AmountOf(c, prior) - TallyOf(c.assets, deals, id).stock;
    if r.reply == Done && OpenWith(st, prior.market, id, left) {
      var o :| Open(st.books[prior.market], o) && o.id == id && o.left == left;
      if cmd.CancelOrder? && cmd.market < |c.markets| {
        FateCancel(c, st, cmd, prior.market, o, cmds);
      } else {
        BooksStay(c, st, cmd);
      }
      assert r.state.books == st.books || OpenWith(r.state, prior.market, id, left)
        || CancelOrder(prior.user, prior.market, id) == cmd;
    }
  }

  lemma BooksStay(c: Config, st: State, cmd: Command)
    requires Ready(c, st, cmd) && (IsOrder(c, cmd) ==> Step(c, st, cmd, LIVE).reply != Done)
    requires cmd.CancelOrder? ==> cmd.market >= |c.markets|
    ensures Step(c, st, cmd, LIVE).state.books == st.books
  {
    hide Inv, Step, Parse, BooksPriced, Aligned;
    StepKeeps(c, st, cmd, LIVE);
    if cmd.UpdateBalance? && cmd.asset in c.assets {
      UpdateOutcome(c, st, cmd, LIVE);
    } else if !IsOrder(c, cmd) {
      UnknownReplies(c, st, cmd, LIVE);
    }
  }

  /** After a cancel an open order is still open, or it is the one, and its user has cancelled it. */
  lemma FateCancel(c: Config, st: State, cmd: Command, i: nat, o: Order, cmds: seq<Command>)
    requires Ready(c, st, cmd) && cmd.CancelOrder? && cmd.market < |c.markets| && Step(c, st, cmd, LIVE).reply == Done
    requires Entered(c, st, cmds) && i < |st.books| && Open(st.books[i], o)
    ensures 1 <= o.id <= |cmds| && cmds[o.id - 1].LimitOrder?
    ensures var r := Step(c, st, cmd, LIVE);
      || (i < |r.state.books| && Open(r.state.books[i], o))
      || CancelOrder(cmds[o.id - 1].user, i, o.id) == cmd
  {
    hide Step, Parse, BooksPriced, Aligned, Sound, IdsOk, FrozenIsLocked;
    CancelReplies(c, st, cmd, LIVE);
    var p :| Open(st.books[cmd.market], p) && p.id == cmd.order && p.user == cmd.user;
    CancelEffect(c, st, cmd, LIVE, p, Key(p.user, AVAILABLE, ""));
  }

  // ----- Runs

  ghost predicate Fates(c: Config, st: State, cmds: seq<Command>, log: seq<Command>, deals: seq<Deal>) {
    forall n | 0 <= n < |cmds| :: IsOrder(c, cmds[n]) && Fate(c, st, cmds[n], n + 1, log, deals)
  }

  /** Everything that a run carries along. */
  ghost predicate Chronicled(c: Config, st: State, log: seq<Command>, deals: seq<Deal>) {
    StateRecorded(c, st, deals) && Entered(c, st, OrdersOf(log)) && Fates(c, st, OrdersOf(log), log, deals)
  }

  lemma StepFates(c: Config, st: State, cmd: Command, log: seq<Command>, deals: seq<Deal>)
    requires Ready(c, st, cmd) && Chronicled(c, st, log, deals)
    ensures var r := Step(c, st, cmd, LIVE);
      Chronicled(c, r.state, log + (if r.reply == Done then [cmd] else []), deals + r.deals)
  {
    hide Inv, Step, BooksPriced, Aligned, Fate, Entered, OrdersOf, StateRecorded;
    var r, cmds := Step(c, st, cmd, LIVE), OrdersOf(log);
    var added := if r.reply == Done then [cmd] else [];
    OneOrder(cmd);
    OrdersOfNone();
    OrdersOfAppend(log, added);
    StepRecords(c, st, cmd, LIVE, deals);
    StepOrigins(c, st, cmd, cmds);
    EnteredCount(c, st, cmds);
    if IsOrder(c, cmd) && r.reply == Done {
      FateNew(c, st, cmd, log + added, deals);
      forall n | 0 <= n < |cmds| ensures Fate(c, r.state, cmds[n], n + 1, log + added, deals + r.deals) {
        FateOrder(c, st, cmd, cmds[n], n + 1, log, deals, cmds);
        FateLater(c, r.state, cmds[n], n + 1, log, added, deals + r.deals);
      }
    } else {
      NoNewOrder(c, st, cmd);
      assert deals + [] == deals && cmds + [] == cmds;
      forall n | 0 <= n < |cmds| ensures Fate(c, r.state, cmds[n], n + 1, log + added, deals) {
        FateOther(c, st, cmd, cmds[n], n + 1, log, deals, cmds);
      }
    }
  }

  lemma EnteredCount(c: Config, st: State, cmds: seq<Command>)
    requires Entered(c, st, cmds)
    ensures |cmds| == st.lastOrder
  {
  }

  lemma FateLater(c: Config, st: State, cmd: Command, id: OrderId, log: seq<Command>, more: seq<Command>,
          deals: seq<Deal>)
    requires IsOrder(c, cmd) && Fate(c, st, cmd, id, log, deals)
    ensures Fate(c, st, cmd, id, log + more, deals)
  {
    hide Parse, TallyOf, OpenWith;
  }

  lemma {:induction false} RunChronicled(c: Config, st: State, events: seq<Event>, log: seq<Command>, deals: seq<Deal>)
    requires Inv(c, st) && AllAligned(c, events) && Chronicled(c, st, log, deals)
    ensures var r := Run(c, st, events); Chronicled(c, r.state, log + r.log, deals + r.deals)
    decreases |events|
  {
    hide Inv, Step, Aligned, Chronicled, Conserves;
    if events == [] {
      assert log + [] == log && deals + [] == deals;
    } else {
      var r := Happen(c, st, events[0]);
      var rest := Run(c, r.state, events[1..]);
      HappenChronicled(c, st, events[0], log, deals);
      RunChronicled(c, r.state, events[1..], log + r.log, deals + r.deals);
      assert log + (r.log + rest.log) == (log + r.log) + rest.log;
      assert deals + (r.deals + rest.deals) == (deals + r.deals) + rest.deals;
    }
  }

  lemma HappenChronicled(c: Config, st: State, e: Event, log: seq<Command>, deals: seq<Deal>)
    requires Inv(c, st) && (e.Request? ==> Aligned(c, e.cmd)) && Chronicled(c, st, log, deals)
    ensures var r := Happen(c, st, e); Chronicled(c, r.state, log + r.log, deals + r.deals)
  {
    hide Inv, Step, Aligned, Conserves, BooksPriced, EnteredAs, OrdersOf, TallyOf, DealsOk, SideRecorded, Parse;
    assert log + [] == log && deals + [] == deals;
    if e.Request? {
      InvShape(c, st);
      StepFates(c, st, e.cmd, log, deals);
    } else {
      var st' := Happen(c, st, e).state;
      assert st'.books == st.books && st'.lastOrder == st.lastOrder;
      var cmds := OrdersOf(log);
      forall n | 0 <= n < |cmds| ensures Fate(c, st', cmds[n], n + 1, log, deals) {
        assert Fate(c, st, cmds[n], n + 1, log, deals);
      }
    }
  }

  /** The fate of every order, after any run from the empty engine: no accepted order has traded more than its amount;
    and an accepted limit order has traded exactly its amount, or was cancelled by its own user, or is open with
    exactly what it has not traded. */
  lemma OrderFates(c: Config, events: seq<Event>, id: OrderId)
    requires ConfigOk(c) && AllAligned(c, events)
    ensures Inv(c, InitialState(c))
    ensures var r := Run(c, InitialState(c), events);
      && |OrdersOf(r.log)| == r.state.lastOrder
      && (1 <= id <= r.state.lastOrder ==>
        var cmd := OrdersOf(r.log)[id - 1];
        IsOrder(c, cmd) && Fate(c, r.state, cmd, id, r.log, r.deals))
  {
    hide Inv, Run, Fate, Entered, OrdersOf, StateRecorded;
    InitialInv(c);
    NothingRecorded(c);
    NothingEntered(c);
    RunChronicled(c, InitialState(c), events, [], []);
    var r := Run(c, InitialState(c), events);
    assert [] + r.log == r.log && [] + r.deals == r.deals;
    EnteredCount(c, r.state, OrdersOf(r.log));
  }
}
