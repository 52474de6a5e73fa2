/** Where the engine's guarantees end: inputs that the code accepts and that break them. */
module EdgeCases {
  import opened Decimal
  import opened Balances
  import opened Orders
  import opened Matching
  import opened EngineSpec
  import opened EngineInvariant
  import opened EngineRuns
  import opened Replay

  /** Replaying an accepted update on an engine that was alike leads to a like engine if and only if the two
    precisions, of what is shown and of what is kept, read its change the same. */
  lemma UpdateReplaysIff(c: Config, a: State, b: State, cmd: Command)
    requires Inv(c, a) && StatesAlike(a, b) && BooksPriced(a) && BooksPriced(b) && |c.markets| == |a.books| == |b.books|
    requires cmd.UpdateBalance? && cmd.asset in c.assets && KeyOf(cmd) !in b.updates
      && Step(c, a, cmd, LIVE).reply == Done
    ensures var r, s := Step(c, a, cmd, LIVE), Step(c, b, cmd, REPLAY);
      s.reply == Done && StatesAlike(r.state, s.state) <==> SameReading(c, cmd)
  {
    hide BookOk, IdsOk, Effect, Locked, Sound, Add, Sub, Total, Truncate;
    var t, k := c.assets[cmd.asset], Key(cmd.user, AVAILABLE, cmd.asset);
    var live, kept := Parse(cmd.change, t.precShow), Parse(cmd.change, t.precSave);
    if SameReading(c, cmd) {
      UpdateAlike(c, a, b, KeyOf(cmd), live, kept);
    } else {
      ChangeApplies(c.assets, a.balance, k, live);
      ChangeApplies(c.assets, a.balance, k, kept);
    }
  }

  /** An order that joins its side is matched by what is frozen for it if and only if its collateral is a whole
    number of units. */
  lemma FreezeFollowsIff(c: Config, st: State, i: nat, o: Order)
    requires Inv(c, st) && i < |st.books| && o.kind == LIMIT && o.left > 0.0 && o.price > 0.0
    requires Available(st, o.user, GiveAsset(c.markets[i], o.side)) >= Give(o.side, o.price, o.left)
    ensures FrozenIsLocked(c, OrderPut(c, st, i, o)) <==>
      OnGrid(Give(o.side, o.price, o.left), c.assets[GiveAsset(c.markets[i], o.side)].precSave)
  {
    hide Mul, OnGrid, Truncate, Total, IdsOk, BookOk;
    var m, amount := c.markets[i], Give(o.side, o.price, o.left);
    assert m in c.markets;
    var asset := GiveAsset(m, o.side);
    var p, target := c.assets[asset].precSave, Key(o.user, FREEZE, asset);
    var o', st' := o.(freeze := amount), OrderPut(c, st, i, o);
    var s := SideOf(st.books[i], o.side);
    MulPos(o.price, o.left);
    SoundAt(c.assets, st.balance, target);
    TruncatedAdd(At(st.balance, target), amount, p);
    TruncateIsFloor(amount, p);
    SumFreezeInsert(s, o', o.user);
    LockedUpdate(c.markets, st.books, i, st'.books[i], o.user, asset);
    assert At(st'.balance, target) == At(st.balance, target) + Truncate(amount, p);
    assert Locked(c.markets, st'.books, o.user, asset) == Locked(c.markets, st.books, o.user, asset) + amount;
    if OnGrid(amount, p) {
      MoveChanges(c.assets, st.balance, o.user, asset, AVAILABLE, amount);
      forall u, a ensures At(st'.balance, Key(u, FREEZE, a))
          == At(st.balance, Key(u, FREEZE, a))
            + (if a == asset then SumFreeze(Insert(s, o'), u) - SumFreeze(s, u) else 0.0) {
        SumFreezeInsert(s, o', u);
      }
      FrozenAfterSide(c, st, st', i, o.side, Insert(s, o'));
    }
  }

  const CENTS: AssetType := AssetType(2, 1)
  const CENTS_ONLY: Config := Config(map["A" := CENTS], [])
  const FIVE_CENTS: Command := UpdateBalance(0, "A", "deposit", 1, 0.05)

  lemma FiveCents()
    ensures Truncate(0.05, 1) == 0.0 && Truncate(0.0, 2) == 0.0 && Truncate(0.05, 2) == 0.05
  {
    assert TruncateNonNeg(0.5, 0) == 0.0;
    assert TruncateNonNeg(0.0, 0) == 0.0;
    assert TruncateNonNeg(0.0, 1) == 0.0;
    assert TruncateNonNeg(5.0, 0) == 5.0;
    assert TruncateNonNeg(0.5, 1) == 0.5;
  }

  /** A deposit of 0.05 of an asset shown with one digit and kept with two, to an empty engine: the live request
    is accepted and adds nothing, the replay of its log row is accepted and adds 0.05. */
  lemma UpdateReadApart()
    ensures BooksPriced(InitialState(CENTS_ONLY)) && !SameReading(CENTS_ONLY, FIVE_CENTS)
    ensures var r, s := Step(CENTS_ONLY, InitialState(CENTS_ONLY), FIVE_CENTS, LIVE),
      Step(CENTS_ONLY, InitialState(CENTS_ONLY), FIVE_CENTS, REPLAY);
      && r.reply == Done && r.state.balance == map[]
      && s.reply == Done && s.state.balance == map[Key(0, AVAILABLE, "A") := 0.05]
      && !StatesAlike(r.state, s.state)
  {
    hide Truncate;
    FiveCents();
    var r, s := Step(CENTS_ONLY, InitialState(CENTS_ONLY), FIVE_CENTS, LIVE),
      Step(CENTS_ONLY, InitialState(CENTS_ONLY), FIVE_CENTS, REPLAY);
    assert r.state.balance == map[];
    assert Key(0, AVAILABLE, "A") in s.state.balance;
  }

  // ----- A market without digits

  const WHOLE: AssetType := AssetType(0, 0)
  const COARSE: Config := Config(map["S" := WHOLE, "M" := WHOLE], [Market("S", "M", 0, 0, 0, 0.0)])

  /** One user who has one unit of the stock. */
  const FUNDED: State := State(map[Key(0, AVAILABLE, "S") := 1.0], [Book([], [])], 0, 0, {})

  const HALF: Command := LimitOrder(0, 0, ASK, 0.5, 1.0, 0.0, 0.0)

  lemma FundedInv()
    ensures Inv(COARSE, FUNDED) && BooksPriced(FUNDED)
  {
    assert IsInt(1.0);
    forall u, a ensures At(FUNDED.balance, Key(u, FREEZE, a)) == Locked(COARSE.markets, FUNDED.books, u, a) {
      LockedEmpty(COARSE.markets, FUNDED.books, u, a);
    }
    InvPriced(COARSE, FUNDED);
  }

  /** With precision zero a number keeps its digits: half a unit is offered, and both balances are cut to nothing,
    while the order locks half a unit. */
  lemma UnalignedOrderBreaks()
    ensures Inv(COARSE, FUNDED) && BooksPriced(FUNDED) && !Aligned(COARSE, HALF)
    ensures var r := Step(COARSE, FUNDED, HALF, LIVE);
      && r.reply == Done && |r.state.books| == 1 && r.state.balance == map[]
      && Locked(COARSE.markets, r.state.books, 0, "S") == 0.5 && !Inv(COARSE, r.state)
  {
    FundedInv();
    assert !IsInt(0.5);
    var taker := NewOrder(1, LIMIT, ASK, 0, 1.0, 0.5, 0.0, 0.0);
    var x := StartMatch(FUNDED, 0, taker);
    assert Execute(COARSE.assets, COARSE.markets[0], x) == x;
    var o := taker.(freeze := 0.5);
    assert Truncate(0.5, 0) == 0.0;
    var r := Step(COARSE, FUNDED, HALF, LIVE);
    assert r.state.books == [Book([o], [])];
    assert r.state.balance == map[];
    assert SumFreeze([o], 0) == 0.5 by { assert [o][1..] == []; }
    assert Locked(COARSE.markets[1..], r.state.books[1..], 0, "S") == 0.0;
    assert At(r.state.balance, Key(0, FREEZE, "S")) == 0.0;
  }
}
