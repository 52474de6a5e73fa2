/** Whole histories of the engine: requests, flushes of its log, slices, crashes and restarts, in any order.

  A history is compared with one engine that never stops and is given the accepted commands one by one. */
module History {
  import opened Wrappers
  import opened Decimal
  import opened Balances
  import opened Orders
  import opened Matching
  import opened MatchingProofs
  import opened EngineSpec
  import opened EngineInvariant
  import opened EngineRuns
  import opened Replay
  import opened Restart

  /** What can happen to the server. `Flush` is `flush_log`; `Midnight` starts a new log table; `Crash` ends the
    process, with what it has not flushed, and starts the next one from the database. */
  datatype Item = Happens(event: Event) | Flush | Midnight | TakeSlice | Crash

  /** The engine, the accepted commands in order, and how many of them are in log tables; the state that the last
    slice was taken of and how many commands had been accepted then; and how many commands were in log tables
    when the table of today began. */
  datatype World = World(
    engine: State, log: seq<Command>, flushed: nat, hasSlice: bool, sliced: State, mark: nat, dawn: nat)

  predicate ItemAligned(c: Config, item: Item) {
    item.Happens? && item.event.Request? ==> Aligned(c, item.event.cmd)
  }

  predicate ItemsAligned(c: Config, items: seq<Item>) {
    forall item | item in items :: ItemAligned(c, item)
  }

  predicate AlignedLog(c: Config, log: seq<Command>) {
    forall cmd | cmd in log :: Aligned(c, cmd)
  }

  ghost predicate WorldOk(c: Config, w: World) {
    && FitsSchema(c) && Inv(c, w.engine) && Inv(c, w.sliced) && AlignedLog(c, w.log)
    && w.dawn <= w.flushed <= |w.log| && w.mark <= |w.log|
    && (!w.hasSlice ==> w.sliced == InitialState(c) && w.mark == 0)
  }

  ghost function Start(c: Config): World {
    World(InitialState(c), [], 0, false, InitialState(c), 0, 0)
  }

  /** Without a slice only the table of today is read. It is not the whole log if there was one before it. */
  predicate Stranded(w: World) {
    !w.hasSlice && w.dawn > 0
  }

  /** The commands that a crash leaves: those before the slice and those in log tables. */
  function Survivors(w: World): (log: seq<Command>)
    requires w.flushed <= |w.log| && w.mark <= |w.log|
    ensures |w.log| >= |log| >= w.mark && |log| >= w.flushed && log == w.log[..|log|]
  {
    w.log[..if w.flushed < w.mark then w.mark else w.flushed]
  }

  /** The engine that starts from the last slice, or from nothing, and the log rows after it. */
  ghost function Recovered(c: Config, w: World): Option<State>
    requires WorldOk(c, w)
  {
    SchemaFits(c, w.sliced);
    RestartedInv(c, w.sliced);
    ReplayLog(c, Restarted(w.sliced), Survivors(w)[w.mark..])
  }

  ghost function Next(c: Config, w: World, item: Item): (r: Option<World>)
    requires WorldOk(c, w) && ItemAligned(c, item)
    ensures r.Some? ==> WorldOk(c, r.value)
  {
    match item
    case Happens(e) =>
      var r := Happen(c, w.engine, e);
      Some(w.(engine := r.state, log := w.log + r.log))
    case Flush => Some(w.(flushed := |w.log|))
    case Midnight => Some(w.(dawn := w.flushed))
    case TakeSlice => Some(w.(hasSlice := true, sliced := w.engine, mark := |w.log|))
    case Crash => Restarts(c, w)
  }

  /** `init_from_db`. A process that is stranded stops at the first row of today, whose id is not 1; if there is no
    row yet, it starts as if nothing had ever happened. */
  ghost function Restarts(c: Config, w: World): (r: Option<World>)
    requires WorldOk(c, w)
    ensures r.Some? ==> WorldOk(c, r.value)
  {
    RecoveredInv(c, w);
    if Stranded(w) then
      if w.flushed > w.dawn then None else StartOk(c); Some(Start(c))
    else
      match Recovered(c, w)
      case None => None
      case Some(st) => Some(w.(engine := st, log := Survivors(w), flushed := |Survivors(w)|))
  }

  /** A history that meets a restart that fails ends there. */
  ghost function Play(c: Config, w: World, items: seq<Item>): (r: Option<World>)
    requires WorldOk(c, w) && ItemsAligned(c, items)
    ensures r.Some? ==> WorldOk(c, r.value)
    decreases |items|
  {
    if items == [] then Some(w)
    else
      match Next(c, w, items[0])
      case None => None
      case Some(v) => Play(c, v, items[1..])
  }

  lemma RecoveredInv(c: Config, w: World)
    requires WorldOk(c, w)
    ensures Recovered(c, w).Some? ==> Inv(c, Recovered(c, w).value)
    ensures AlignedLog(c, Survivors(w))
  {
    hide Inv, FitsSchema, Restarted, Aligned;
    SchemaFits(c, w.sliced);
    RestartedInv(c, w.sliced);
    ReplayLogInv(c, Restarted(w.sliced), Survivors(w)[w.mark..]);
  }

  lemma {:induction false} ReplayLogInv(c: Config, st: State, log: seq<Command>)
    requires Inv(c, st) && (forall cmd | cmd in log :: Aligned(c, cmd))
    ensures var r := ReplayLog(c, st, log); r.Some? ==> Inv(c, r.value)
    decreases |log|
  {
    hide Inv, Step, Aligned;
    if log != [] {
      var r := SafeStep(c, st, log[0], REPLAY);
      if r.reply == Done { ReplayLogInv(c, r.state, log[1..]); }
    }
  }

  lemma StartOk(c: Config)
    requires ConfigOk(c) && FitsSchema(c)
    ensures WorldOk(c, Start(c))
  {
    InitialInv(c);
  }

  /** Every engine of every history satisfies the invariant, restarted or not, and whatever a slice has lost of
    its available balances: frozen balances are the collateral of open orders, no market is crossed, and no
    order id is used twice. */
  lemma HistoryInv(c: Config, items: seq<Item>)
    requires ConfigOk(c) && FitsSchema(c) && ItemsAligned(c, items)
    ensures WorldOk(c, Start(c))
    ensures var r := Play(c, Start(c), items);
      r.Some? ==>
        var st := r.value.engine;
        && Inv(c, st) && FrozenIsLocked(c, st) && IdsOk(st.books, st.lastOrder)
        && (forall b | b in st.books :: Uncrossed(b) && PriceTime(b.asks, ASK) && PriceTime(b.bids, BID))
        && (forall k :: At(st.balance, k) >= 0.0)
  {
    hide Play, FitsSchema, IdsOk, Uncrossed, Locked, OnGrid, Resting, Sorted;
    StartOk(c);
    var r := Play(c, Start(c), items);
    if r.Some? {
      forall b | b in r.value.engine.books
        ensures Uncrossed(b) && PriceTime(b.asks, ASK) && PriceTime(b.bids, BID)
      {
        var i :| 0 <= i < |r.value.engine.books| && r.value.engine.books[i] == b;
        assert BookOk(c.markets[i], b);
        PricedSide(c.markets[i], b.asks, ASK);
        PricedSide(c.markets[i], b.bids, BID);
        SortedIsPriceTime(b.asks, ASK);
        SortedIsPriceTime(b.bids, BID);
      }
    }
  }

  // ----- The engine that never stops

  /** The commands as requests to an engine that has forgotten their keys. */
  function Played(log: seq<Command>): seq<Event> {
    if log == [] then []
    else [Forget(if log[0].UpdateBalance? then {KeyOf(log[0])} else {}), Request(log[0])] + Played(log[1..])
  }

  lemma {:induction false} PlayedAligned(c: Config, log: seq<Command>)
    requires AlignedLog(c, log)
    ensures AllAligned(c, Played(log))
  {
    hide Aligned;
    if log != [] {
      PlayedAligned(c, log[1..]);
    }
  }

  /** One command to an engine that has forgotten its key. */
  ghost function Afresh(c: Config, st: State, cmd: Command): (r: Result)
    requires Inv(c, st) && Aligned(c, cmd)
    ensures Inv(c, r.state)
  {
    var keys := if cmd.UpdateBalance? then {KeyOf(cmd)} else {};
    ForgetInv(c, st, keys);
    SafeStep(c, st.(updates := st.updates - keys), cmd, LIVE)
  }

  lemma ForgetInv(c: Config, st: State, keys: set<UpdateKey>)
    requires Inv(c, st)
    ensures Inv(c, st.(updates := st.updates - keys))
  {
  }

  /** The engine that is given the commands of a log one by one, if it accepts them all. */
  ghost function Follow(c: Config, st: State, log: seq<Command>): (r: Option<State>)
    requires Inv(c, st) && AlignedLog(c, log)
    ensures r.Some? ==> Inv(c, r.value)
    decreases |log|
  {
    if log == [] then Some(st)
    else
      var r := Afresh(c, st, log[0]);
      if r.reply != Done then None else Follow(c, r.state, log[1..])
  }

  /** Following a log is a run that accepts exactly this log. */
  lemma {:induction false} FollowIsRun(c: Config, st: State, log: seq<Command>)
    requires Inv(c, st) && AlignedLog(c, log) && Follow(c, st, log).Some?
    ensures AllAligned(c, Played(log))
    ensures Run(c, st, Played(log)).log == log && Run(c, st, Played(log)).state == Follow(c, st, log).value
    decreases |log|
  {
    hide Inv, Step, Aligned;
    PlayedAligned(c, log);
    if log != [] {
      var keys := if log[0].UpdateBalance? then {KeyOf(log[0])} else {};
      var r := Afresh(c, st, log[0]);
      FollowIsRun(c, r.state, log[1..]);
      ForgetInv(c, st, keys);
      var st0 := st.(updates := st.updates - keys);
      var events := Played(log);
      assert events[1..] == [Request(log[0])] + Played(log[1..]) && events[1..][1..] == Played(log[1..]);
      var rest := Run(c, r.state, Played(log[1..]));
      assert Run(c, st0, events[1..]).log == [log[0]] + rest.log && Run(c, st0, events[1..]).state == rest.state;
      assert Happen(c, st, events[0]) == RunResult(st0, [], []);
      assert [] + ([log[0]] + rest.log) == log;
    }
  }

  lemma {:induction false} FollowAppend(c: Config, st: State, x: seq<Command>, y: seq<Command>)
    requires Inv(c, st) && AlignedLog(c, x) && AlignedLog(c, y)
    ensures AlignedLog(c, x + y)
    ensures var r := Follow(c, st, x);
      Follow(c, st, x + y) == (if r.None? then None else Follow(c, r.value, y))
    decreases |x|
  {
    hide Inv, Aligned, Afresh;
    if x == [] {
      assert x + y == y;
    } else {
      assert (x + y)[1..] == x[1..] + y;
      assert AlignedLog(c, x + y);
      var r := Afresh(c, st, x[0]);
      if r.reply == Done { FollowAppend(c, r.state, x[1..], y); }
    }
  }

  /** A command that an engine accepts is accepted afresh by a like engine, and they stay alike. */
  lemma StepFollows(c: Config, a: State, b: State, cmd: Command)
    requires Inv(c, a) && Inv(c, b) && StatesAlike(a, b) && Aligned(c, cmd) && SafeStep(c, b, cmd, LIVE).reply == Done
    ensures var r := Afresh(c, a, cmd);
      r.reply == Done && StatesAlike(r.state, SafeStep(c, b, cmd, LIVE).state)
  {
    hide Inv, Step, StatesAlike, Aligned;
    var keys := if cmd.UpdateBalance? then {KeyOf(cmd)} else {};
    var a' := a.(updates := a.updates - keys);
    ForgetInv(c, a, keys);
    ForgetAlike(a, b, keys);
    AlikeSymmetric(a', b);
    AlikePriced(c, b, a');
    StepReplays(c, b, a', cmd, LIVE);
    AlikeSymmetric(SafeStep(c, b, cmd, LIVE).state, Afresh(c, a, cmd).state);
  }

  // ----- The simulation

  /** The engine that never stops is like the engine of the history, and was, at the slice, like what the slice
    keeps. */
  ghost predicate Simulated(c: Config, w: World) {
    && WorldOk(c, w) && Inv(c, InitialState(c))
    && var at, now := Follow(c, InitialState(c), w.log[..w.mark]), Follow(c, InitialState(c), w.log);
      at.Some? && now.Some? && StatesAlike(at.value, Restarted(w.sliced)) && StatesAlike(now.value, w.engine)
  }

  /** Where a history is exact: slices are taken of balances that fit their column, no process is stranded, and the
    balance changes that are replayed have the same effect as when they were live. */
  ghost predicate Exact(c: Config, w: World, item: Item)
    requires WorldOk(c, w)
  {
    match item
    case TakeSlice => BalancesFit(w.engine.balance)
    case Crash => !Stranded(w) && ReadSame(c, Survivors(w)[w.mark..])
    case _ => true
  }

  ghost predicate AllExact(c: Config, w: World, items: seq<Item>)
    requires WorldOk(c, w) && ItemsAligned(c, items)
    decreases |items|
  {
    items == [] || (Exact(c, w, items[0]) && var v := Next(c, w, items[0]);
      v.Some? ==> AllExact(c, v.value, items[1..]))
  }

  lemma StartSimulated(c: Config)
    requires ConfigOk(c) && FitsSchema(c)
    ensures Simulated(c, Start(c))
  {
    hide Inv, FitsSchema, StoredBalance;
    StartOk(c);
    InitialInv(c);
    RestartedAlike(c, InitialState(c));
    assert Start(c).log[..0] == [];
  }

  /** The engine of a crash: it starts exactly when the log after the slice repeats no update key, and then it is
    like the engine that never stops at the last command that survived, which are those in log tables or before the
    slice. */
  lemma CrashSimulated(c: Config, w: World)
    requires Simulated(c, w) && !Stranded(w) && ReadSame(c, Survivors(w)[w.mark..])
    ensures Next(c, w, Crash).Some? <==> NoRepeat(Survivors(w)[w.mark..], {})
    ensures Next(c, w, Crash).Some? ==>
      var v := Next(c, w, Crash).value;
      && Simulated(c, v) && v.log <= w.log && v.flushed == |v.log|
      && |v.log| == if w.flushed < w.mark then w.mark else w.flushed
  {
    hide Inv, FitsSchema, Aligned, ReadSame, NoRepeat, StatesAlike, Restarted, ReplayLog, Follow, Run, Played;
    var log, init := Survivors(w), InitialState(c);
    var past, since := w.log[..w.mark], log[w.mark..];
    assert past + since == log && log[..w.mark] == past && log + w.log[|log|..] == w.log;
    FollowAppend(c, init, log, w.log[|log|..]);
    FollowAppend(c, init, past, since);
    var at := Follow(c, init, past).value;
    SchemaFits(c, w.sliced);
    RestartedInv(c, w.sliced);
    FollowIsRun(c, at, since);
    RestartedKeys(w.sliced);
    ReplayFollowsRun(c, at, Restarted(w.sliced), Played(since));
    RecoveredInv(c, w);
  }

  lemma {:induction false} NextSimulated(c: Config, w: World, item: Item)
    requires Simulated(c, w) && ItemAligned(c, item) && Exact(c, w, item) && Next(c, w, item).Some?
    ensures Simulated(c, Next(c, w, item).value)
  {
    hide Inv, FitsSchema, Aligned, ReadSame, NoRepeat, StatesAlike, Restarted, ReplayLog, Follow, BalancesFit, Step,
      Recovered;
    var init, now := InitialState(c), Follow(c, InitialState(c), w.log);
    match item
    case Happens(e) =>
      var r := Happen(c, w.engine, e);
      FollowAppend(c, init, w.log, r.log);
      assert (w.log + r.log)[..w.mark] == w.log[..w.mark];
      match e {
        case Forget(keys) =>
          assert w.log + r.log == w.log;
          AlikeSymmetric(now.value, w.engine);
          ForgetAlike(w.engine, now.value, keys);
          AlikeSymmetric(r.state, now.value);
        case Request(cmd) =>
          var live := SafeStep(c, w.engine, cmd, LIVE);
          if live.reply == Done {
            StepFollows(c, now.value, w.engine, cmd);
            FollowOne(c, now.value, cmd);
          } else {
            assert w.log + r.log == w.log;
          }
      }
    case Flush =>
    case Midnight =>
    case TakeSlice =>
      assert w.log[..|w.log|] == w.log;
      RestartedAlike(c, w.engine);
      AlikeTransitive(now.value, w.engine, Restarted(w.engine));
    case Crash => CrashSimulated(c, w);
  }

  lemma FollowOne(c: Config, st: State, cmd: Command)
    requires Inv(c, st) && Aligned(c, cmd) && Afresh(c, st, cmd).reply == Done
    ensures Follow(c, st, [cmd]) == Some(Afresh(c, st, cmd).state)
  {
    hide Inv, Aligned, Afresh;
    assert [cmd][1..] == [];
  }

  lemma {:induction false} PlaySimulated(c: Config, w: World, items: seq<Item>)
    requires Simulated(c, w) && ItemsAligned(c, items) && AllExact(c, w, items) && Play(c, w, items).Some?
    ensures Simulated(c, Play(c, w, items).value)
    decreases |items|
  {
    hide Simulated, Next, Exact, Aligned, WorldOk;
    assert WorldOk(c, w) by { SimulatedOk(c, w); }
    if items != [] {
      assert items[0] in items;
      NextSimulated(c, w, items[0]);
      PlaySimulated(c, Next(c, w, items[0]).value, items[1..]);
    }
  }

  lemma SimulatedOk(c: Config, w: World)
    requires Simulated(c, w)
    ensures WorldOk(c, w)
  {
  }

  /** Over every exact history, however often the server crashed, lost the commands it had not flushed, and
    started again: the accepted commands that were not lost are the log of a run without any restart, and that
    run ends with the books, balances and counters of the history's engine, up to digits of recorded fees. The
    next restart succeeds if and only if the log after the last slice repeats no update key, or, without a slice,
    if the only log table is that of today or that of today is empty. */
  lemma HistoryMatchesRun(c: Config, items: seq<Item>)
    requires ConfigOk(c) && FitsSchema(c) && ItemsAligned(c, items)
    ensures WorldOk(c, Start(c)) && Inv(c, InitialState(c))
    ensures var r := Play(c, Start(c), items);
      r.Some? && AllExact(c, Start(c), items) ==>
        var w := r.value;
        && AllAligned(c, Played(w.log))
        && var live := Run(c, InitialState(c), Played(w.log));
          && live.log == w.log && StatesAlike(live.state, w.engine)
          && (ReadSame(c, Survivors(w)[w.mark..]) ==>
            (Next(c, w, Crash).Some? <==>
              if Stranded(w) then w.flushed == w.dawn else NoRepeat(Survivors(w)[w.mark..], {})))
  {
    hide Inv, FitsSchema, Aligned, ReadSame, NoRepeat, StatesAlike, AllExact, Play, Follow, Run, Played, Recovered;
    InitialInv(c);
    StartOk(c);
    var r := Play(c, Start(c), items);
    if r.Some? && AllExact(c, Start(c), items) {
      StartSimulated(c);
      PlaySimulated(c, Start(c), items);
      var w := r.value;
      FollowIsRun(c, InitialState(c), w.log);
      if ReadSame(c, Survivors(w)[w.mark..]) && !Stranded(w) { CrashSimulated(c, w); }
    }
  }

  /** Conservation over exact histories: what the surviving updates added, less the fees of the deals. */
  lemma HistoryConserves(c: Config, items: seq<Item>, a: Asset)
    requires ConfigOk(c) && FitsSchema(c) && ItemsAligned(c, items)
    ensures WorldOk(c, Start(c)) && Inv(c, InitialState(c))
    ensures var r := Play(c, Start(c), items);
      r.Some? && AllExact(c, Start(c), items) ==>
        var w := r.value;
        && AllAligned(c, Played(w.log))
        && Total(w.engine.balance, a)
           == AllDeposited(c, w.log, a) - SumCharged(c.assets, Run(c, InitialState(c), Played(w.log)).deals, a)
  {
    hide Inv, FitsSchema, Aligned, ReadSame, NoRepeat, AllExact, Play, Next, Run, Played, BooksAlike, AllDeposited,
      SumCharged, WorldOk;
    HistoryMatchesRun(c, items);
    var r := Play(c, Start(c), items);
    if r.Some? && AllExact(c, Start(c), items) {
      RunConserves(c, InitialState(c), Played(r.value.log), a);
      assert InitialState(c).balance == map[];
    }
  }
}
