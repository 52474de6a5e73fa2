/** What every user holds over a run: what the user deposited, and what the user's own deals gave and took. */
module Holdings {
  import opened Decimal
  import opened Balances
  import opened Matching
  import opened EngineSpec
  import opened EngineInvariant
  import opened EngineRuns
  import opened Records
  import opened Outcomes
  import opened Origins

  /** Available and frozen together. */
  function Held(b: Balance, user: UserId, asset: Asset): Dec {
    At(b, Key(user, AVAILABLE, asset)) + At(b, Key(user, FREEZE, asset))
  }

  /** What a deal gives a user of an asset, and takes from it, whoever took and whoever rested. */
  function Gain(assets: Assets, d: Deal, user: UserId, asset: Asset): Dec {
    (if user == d.askUser && asset == d.money then d.price * d.amount - RoundUp(d.askFee, PrecOf(assets, asset))
      else 0.0)
    - (if user == d.askUser && asset == d.stock then d.amount else 0.0)
    + (if user == d.bidUser && asset == d.stock then d.amount - RoundUp(d.bidFee, PrecOf(assets, asset)) else 0.0)
    - (if user == d.bidUser && asset == d.money then d.price * d.amount else 0.0)
  }

  ghost function SumGain(assets: Assets, deals: seq<Deal>, user: UserId, asset: Asset): Dec {
    if deals == [] then 0.0 else Gain(assets, deals[0], user, asset) + SumGain(assets, deals[1..], user, asset)
  }

  /** What an accepted update adds to what a user holds: the change in whole units, rounded toward less. */
  function Deposit(c: Config, cmd: Command, user: UserId, asset: Asset): Dec {
    if cmd.UpdateBalance? && cmd.user == user && cmd.asset == asset && asset in c.assets then
      Effect(Parse(cmd.change, c.assets[asset].precShow), c.assets[asset].precSave)
    else 0.0
  }

  ghost function SumDeposit(c: Config, log: seq<Command>, user: UserId, asset: Asset): Dec {
    if log == [] then 0.0 else Deposit(c, log[0], user, asset) + SumDeposit(c, log[1..], user, asset)
  }

  /** The effect of a change is the greatest number of whole units that is not above it. */
  lemma EffectIsFloor(change: Dec, prec: nat)
    ensures OnGrid(Effect(change, prec), prec) && Effect(change, prec) <= change < Effect(change, prec) + Unit(prec)
  {
    if change >= 0.0 { TruncateIsFloor(change, prec); } else {
      RoundUpIsCeiling(-change, prec);
      OnGridNegate(RoundUp(-change, prec), prec);
    }
  }

  lemma GainIsChange(assets: Assets, d: Deal, user: UserId, asset: Asset)
    ensures Gain(assets, d, user, asset) == DealChange(assets, d, Key(user, AVAILABLE, asset))
      + DealChange(assets, d, Key(user, FREEZE, asset))
  {
    hide RoundUp;
  }

  lemma {:induction false} SumGainIsChange(assets: Assets, deals: seq<Deal>, user: UserId, asset: Asset)
    ensures SumGain(assets, deals, user, asset) == SumChange(assets, deals, Key(user, AVAILABLE, asset))
      + SumChange(assets, deals, Key(user, FREEZE, asset))
  {
    hide Gain, DealChange;
    if deals != [] {
      GainIsChange(assets, deals[0], user, asset);
      SumGainIsChange(assets, deals[1..], user, asset);
    }
  }

  lemma {:induction false} SumGainAppend(assets: Assets, x: seq<Deal>, y: seq<Deal>, user: UserId, asset: Asset)
    ensures SumGain(assets, x + y, user, asset) == SumGain(assets, x, user, asset) + SumGain(assets, y, user, asset)
  {
    hide Gain;
    if x == [] {
      assert x + y == y;
    } else {
      SumGainAppend(assets, x[1..], y, user, asset);
      assert (x + y)[1..] == x[1..] + y;
    }
  }

  lemma {:induction false} SumDepositAppend(c: Config, x: seq<Command>, y: seq<Command>, user: UserId, asset: Asset)
    ensures SumDeposit(c, x + y, user, asset) == SumDeposit(c, x, user, asset) + SumDeposit(c, y, user, asset)
  {
    hide Deposit;
    if x == [] {
      assert x + y == y;
    } else {
      SumDepositAppend(c, x[1..], y, user, asset);
      assert (x + y)[1..] == x[1..] + y;
    }
  }

  // ----- One command

  lemma OrderHoldings(c: Config, st: State, cmd: Command, user: UserId, asset: Asset)
    requires Ready(c, st, cmd) && IsOrder(c, cmd) && Step(c, st, cmd, LIVE).reply == Done
    ensures var r := Step(c, st, cmd, LIVE);
      Held(r.state.balance, user, asset) == Held(st.balance, user, asset) + SumGain(c.assets, r.deals, user, asset)
  {
    hide Inv, Step, Parse, SumChange, SumGain, At, RestOf, Rests, Aligned, BooksPriced;
    OrderBalances(c, st, cmd, LIVE, Key(user, AVAILABLE, asset));
    OrderBalances(c, st, cmd, LIVE, Key(user, FREEZE, asset));
    SumGainIsChange(c.assets, Step(c, st, cmd, LIVE).deals, user, asset);
  }

  lemma CancelHoldings(c: Config, st: State, cmd: Command, user: UserId, asset: Asset)
    requires Ready(c, st, cmd) && cmd.CancelOrder? && cmd.market < |c.markets|
    ensures Held(Step(c, st, cmd, LIVE).state.balance, user, asset) == Held(st.balance, user, asset)
  {
    hide Inv, Step, At, Open, Aligned, BooksPriced, Collateral;
    CancelReplies(c, st, cmd, LIVE);
    if Step(c, st, cmd, LIVE).reply == Done {
      var o :| Open(st.books[cmd.market], o) && o.id == cmd.order;
      CancelEffect(c, st, cmd, LIVE, o, Key(user, AVAILABLE, asset));
      CancelEffect(c, st, cmd, LIVE, o, Key(user, FREEZE, asset));
    }
  }

  lemma UpdateHoldings(c: Config, st: State, cmd: Command, user: UserId, asset: Asset)
    requires Ready(c, st, cmd) && cmd.UpdateBalance? && cmd.asset in c.assets
    ensures var r := Step(c, st, cmd, LIVE);
      Held(r.state.balance, user, asset) == Held(st.balance, user, asset)
        + if r.reply == Done then Deposit(c, cmd, user, asset) else 0.0
  {
    hide Inv, At, Parse, Effect, Update, Total, BooksPriced;
    UpdateChanges(c, st, UpdateKey(cmd.user, cmd.asset, cmd.business, cmd.businessId),
      Parse(cmd.change, c.assets[cmd.asset].precShow));
  }

  lemma StepHoldings(c: Config, st: State, cmd: Command, user: UserId, asset: Asset)
    requires Ready(c, st, cmd)
    ensures var r := Step(c, st, cmd, LIVE);
      Held(r.state.balance, user, asset) == Held(st.balance, user, asset)
        + SumGain(c.assets, r.deals, user, asset) + if r.reply == Done then Deposit(c, cmd, user, asset) else 0.0
  {
    hide Inv, Step, Held, Parse, Gain, Effect, Aligned, BooksPriced;
    if IsOrder(c, cmd) && Step(c, st, cmd, LIVE).reply == Done {
      OrderHoldings(c, st, cmd, user, asset);
    } else {
      NoNewOrder(c, st, cmd);
      StepKeeps(c, st, cmd, LIVE);
      if cmd.CancelOrder? && cmd.market < |c.markets| { CancelHoldings(c, st, cmd, user, asset); }
      else if cmd.UpdateBalance? && cmd.asset in c.assets { UpdateHoldings(c, st, cmd, user, asset); }
      else if cmd.UpdateBalance? || cmd.CancelOrder? { UnknownReplies(c, st, cmd, LIVE); }
    }
  }

  // ----- Runs

  lemma HappenHoldings(c: Config, st: State, e: Event, user: UserId, asset: Asset)
    requires Inv(c, st) && (e.Request? ==> Aligned(c, e.cmd))
    ensures var r := Happen(c, st, e);
      Held(r.state.balance, user, asset) == Held(st.balance, user, asset)
        + SumGain(c.assets, r.deals, user, asset) + SumDeposit(c, r.log, user, asset)
  {
    hide Inv, Step, Held, Gain, Deposit, Aligned, Conserves, BooksPriced;
    if e.Request? {
      InvShape(c, st);
      StepHoldings(c, st, e.cmd, user, asset);
      assert [e.cmd][1..] == [];
    }
  }

  /** Over every run, for every user and asset: what the user holds is what it held, plus its accepted deposits, less
    its withdrawals, plus what its deals paid it after fees, less what they took. No command of another user
    changes it, but for deals with an order of this user. */
  lemma {:induction false} RunHoldings(c: Config, st: State, events: seq<Event>, user: UserId, asset: Asset)
    requires Inv(c, st) && AllAligned(c, events)
    ensures var r := Run(c, st, events);
      Held(r.state.balance, user, asset) == Held(st.balance, user, asset)
        + SumGain(c.assets, r.deals, user, asset) + SumDeposit(c, r.log, user, asset)
    decreases |events|
  {
    hide Inv, Happen, Held, SumGain, SumDeposit, Aligned;
    if events == [] {
      NothingHeld(c, user, asset);
    } else {
      var r := Happen(c, st, events[0]);
      HappenHoldings(c, st, events[0], user, asset);
      RunHoldings(c, r.state, events[1..], user, asset);
      var rest := Run(c, r.state, events[1..]);
      SumGainAppend(c.assets, r.deals, rest.deals, user, asset);
      SumDepositAppend(c, r.log, rest.log, user, asset);
    }
  }

  lemma NothingHeld(c: Config, user: UserId, asset: Asset)
    ensures SumGain(c.assets, [], user, asset) == 0.0 && SumDeposit(c, [], user, asset) == 0.0
  {
  }
}
