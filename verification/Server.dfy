/** The server and its database over a whole history: what `me_operlog.c` flushes and `me_dump.c` writes is what
  `me_persist.c` starts the next process from. */
module Server {
  import opened Wrappers
  import opened EngineSpec
  import opened EngineInvariant
  import opened EngineRuns
  import opened EngineStore
  import opened Restart
  import opened Tables
  import opened Persist
  import opened History

  /** The last slice, if there is one, the log tables day by day, and the day of the slice. */
  datatype Database = Database(slice: Option<SliceTables>, days: seq<seq<Row<Command>>>, sliceDay: nat)

  /** The engine is that of the history, and has the rows in memory that are not flushed. */
  ghost predicate Serves(e: Engine, w: World)
    reads e, e.ledger, e.markets
  {
    && e.Valid() && e.Abs() == w.engine && w.flushed <= |w.log|
    && e.operlogIdStart == |w.log| && e.operlog == Numbered(w.flushed + 1, w.log[w.flushed..])
  }

  /** The tables from the day of the slice on end with the rows that survive a crash and are not in the slice. */
  ghost predicate EndsWith(days: seq<seq<Row<Command>>>, w: World)
    requires w.flushed <= |w.log| && w.mark <= |w.log|
  {
    exists past :: IsPast(days, w, past)
  }

  ghost predicate IsPast(days: seq<seq<Row<Command>>>, w: World, past: seq<Row<Command>>)
    requires w.flushed <= |w.log| && w.mark <= |w.log|
  {
    Concat(days) == past + Numbered(w.mark + 1, Survivors(w)[w.mark..]) && forall r | r in past :: r.id <= w.mark
  }

  ghost predicate Keeps(c: Config, w: World, db: Database) {
    && WorldOk(c, w) && db.slice.Some? == w.hasSlice && db.sliceDay < |db.days|
    && (forall d | d in db.days :: LogTable(c, d)) && (forall r | r in Today(db) :: r.id <= w.flushed)
    && (w.hasSlice ==> SliceKept(db.slice.value, w.sliced, w.mark) && EndsWith(db.days[db.sliceDay..], w))
    && (!w.hasSlice ==> Today(db) == Numbered(w.dawn + 1, w.log[w.dawn..w.flushed]))
  }

  function Today(db: Database): seq<Row<Command>>
    requires db.sliceDay < |db.days|
  {
    db.days[|db.days| - 1]
  }

  ghost predicate SliceKept(t: SliceTables, sliced: State, mark: nat) {
    IsSlice(sliced, SliceOf(t)) && TablesOk(t) && t.endOper == mark
  }

  /** The first process: an empty engine, and nothing in the database. */
  method Begin(c: Config) returns (e: Engine, db: Database)
    requires ConfigOk(c) && FitsSchema(c)
    ensures fresh(e) && fresh(e.ledger) && (forall j | 0 <= j < |e.markets| :: fresh(e.markets[j])) && e.c == c
    ensures WorldOk(c, Start(c)) && Serves(e, Start(c)) && Keeps(c, Start(c), db)
  {
    hide Inv, FitsSchema;
    StartOk(c);
    e := new Engine(c);
    db := Database(None, [[]], 0);
  }

  /** `flush_log`: the rows in memory go into the table of the day. */
  method FlushLog(e: Engine, db: Database, ghost w: World) returns (db': Database)
    requires Serves(e, w) && Keeps(e.c, w, db)
    modifies e`operlog
    ensures var w' := Next(e.c, w, Flush).value; Serves(e, w') && Keeps(e.c, w', db')
  {
    hide Inv, SliceKept, FitsSchema, Aligned, EndsWith, LogTable, WorldOk, InsertRows;
    ghost var rows := e.operlog;
    var sql: seq<Row<Command>> := [];
    assert sql + e.operlog == rows;
    while e.operlog != []
      invariant e.Valid() && e.Abs() == w.engine && e.operlogIdStart == |w.log| && sql + e.operlog == rows
      decreases |e.operlog|
    {
      ghost var st := e.Abs();
      assert (sql + [e.operlog[0]]) + e.operlog[1..] == sql + e.operlog;
      sql := sql + [e.operlog[0]];
      e.operlog := e.operlog[1..];
      assert e.Abs() == st;
    }
    assert sql == rows;
    var today := |db.days| - 1;
    db' := db.(days := db.days[today := InsertRows(db.days[today], sql)]);
    FlushKeeps(e.c, w, db, sql);
  }

  lemma FlushKeeps(c: Config, w: World, db: Database, sql: seq<Row<Command>>)
    requires Keeps(c, w, db) && sql == Numbered(w.flushed + 1, w.log[w.flushed..])
    ensures var today := |db.days| - 1;
      Keeps(c, w.(flushed := |w.log|), db.(days := db.days[today := InsertRows(db.days[today], sql)]))
  {
    hide Inv, SliceKept, FitsSchema, Aligned, InsertRows, EndsWith, LogTable, Concat, Numbered;
    var today, w' := |db.days| - 1, w.(flushed := |w.log|);
    var day := db.days[today];
    assert day in db.days;
    FlushedDay(c, day, w, sql);
    var days' := db.days[today := InsertRows(day, sql)];
    forall d | d in days' ensures LogTable(c, d) {
      assert d in db.days || d == InsertRows(day, sql);
    }
    if w.hasSlice {
      FlushedDays(db.days, db.sliceDay, sql);
      EndsFlushed(db.days[db.sliceDay..], days'[db.sliceDay..], w, sql);
    } else {
      assert w.log[w.dawn..] == w.log[w.dawn..w.flushed] + w.log[w.flushed..]
        && w'.log[w'.dawn..w'.flushed] == w.log[w.dawn..];
      NumberedAppend(w.dawn + 1, w.log[w.dawn..w.flushed], w.log[w.flushed..]);
    }
  }

  /** Rows at the end of the last table are rows at the end of all tables. */
  lemma FlushedDays(days: seq<seq<Row<Command>>>, from: nat, sql: seq<Row<Command>>)
    requires from < |days|
    ensures Concat(days[|days| - 1 := days[|days| - 1] + sql][from..]) == Concat(days[from..]) + sql
  {
    hide Concat;
    var last, tail := |days| - 1, days[from..];
    var day := days[last];
    assert days[last := day + sql][from..] == tail[|tail| - 1 := day + sql];
    assert tail[|tail| - 1 := day] == tail;
    ConcatLast(tail, day + sql);
    ConcatLast(tail, day);
  }

  /** The rows come after those that the table has. */
  lemma FlushedDay(c: Config, day: seq<Row<Command>>, w: World, sql: seq<Row<Command>>)
    requires LogTable(c, day) && (forall r | r in day :: r.id <= w.flushed) && AlignedLog(c, w.log)
      && w.flushed <= |w.log|
    requires sql == Numbered(w.flushed + 1, w.log[w.flushed..])
    ensures InsertRows(day, sql) == day + sql && LogTable(c, day + sql) && forall r | r in day + sql :: r.id <= |w.log|
  {
    hide Aligned;
    var all := day + sql;
    forall i | 0 <= i < |all|
      ensures Aligned(c, all[i].value) && all[i].id <= |w.log| && (i < |day| ==> all[i].id <= w.flushed)
    {
      if i < |day| {
        assert day[i] in day;
      } else {
        assert all[i] == sql[i - |day|] && w.log[w.flushed..][i - |day|] in w.log;
      }
    }
    InsertRowsEnd(day, sql);
  }

  lemma {:induction false} InsertRowEnd(table: seq<Row<Command>>, r: Row<Command>)
    requires forall x | x in table :: x.id < r.id
    ensures InsertRow(table, r) == table + [r]
  {
    if table != [] {
      assert table[0] in table && table == [table[0]] + table[1..];
      InsertRowEnd(table[1..], r);
    }
  }

  lemma {:induction false} InsertRowsEnd(table: seq<Row<Command>>, rows: seq<Row<Command>>)
    requires Keyed(table + rows)
    ensures InsertRows(table, rows) == table + rows
    decreases |rows|
  {
    if rows == [] {
      assert table + rows == table;
    } else {
      var all := table + rows;
      forall x | x in table ensures x.id < rows[0].id {
        var i :| 0 <= i < |table| && table[i] == x;
        assert all[i] == x && all[|table|] == rows[0];
      }
      InsertRowEnd(table, rows[0]);
      assert (table + [rows[0]]) + rows[1..] == all;
      InsertRowsEnd(table + [rows[0]], rows[1..]);
    }
  }

  lemma {:induction false} ConcatLast(days: seq<seq<Row<Command>>>, day: seq<Row<Command>>)
    requires days != []
    ensures Concat(days[|days| - 1 := day]) == Concat(days[..|days| - 1]) + day
  {
    var days' := days[|days| - 1 := day];
    if |days| == 1 {
      assert days'[1..] == [] && days[..0] == [];
    } else {
      assert days'[1..] == days[1..][|days| - 2 := day] && days[..|days| - 1][1..] == days[1..][..|days| - 2];
      ConcatLast(days[1..], day);
    }
  }

  lemma EndsFlushed(days: seq<seq<Row<Command>>>, days': seq<seq<Row<Command>>>, w: World, sql: seq<Row<Command>>)
    requires w.flushed <= |w.log| && w.mark <= |w.log| && EndsWith(days, w)
    requires sql == Numbered(w.flushed + 1, w.log[w.flushed..]) && Concat(days') == Concat(days) + sql
    ensures EndsWith(days', w.(flushed := |w.log|))
  {
    hide Concat, Numbered;
    var w' := w.(flushed := |w.log|);
    var past :| IsPast(days, w, past);
    assert Survivors(w') == w.log;
    if w.flushed >= w.mark {
      assert w.log[w.mark..] == w.log[w.mark..w.flushed] + w.log[w.flushed..];
      NumberedAppend(w.mark + 1, w.log[w.mark..w.flushed], w.log[w.flushed..]);
      assert IsPast(days', w', past);
    } else {
      var lost := w.log[w.flushed..w.mark];
      assert w.log[w.flushed..] == lost + w.log[w.mark..];
      NumberedAppend(w.flushed + 1, lost, w.log[w.mark..]);
      NoneNumbered(w.mark + 1, Survivors(w)[w.mark..]);
      NumberedIds(w.flushed + 1, lost);
      assert IsPast(days', w', past + Numbered(w.flushed + 1, lost));
    }
  }

  lemma NoneNumbered(first: nat, cmds: seq<Command>)
    ensures cmds == [] ==> Numbered(first, cmds) == []
  {
  }

  lemma NumberedIds(first: nat, cmds: seq<Command>)
    ensures forall r | r in Numbered(first, cmds) :: r.id < first + |cmds|
  {
  }

  /** A new day has a new table. */
  lemma MidnightKeeps(c: Config, w: World, db: Database)
    requires Keeps(c, w, db)
    ensures Keeps(c, Next(c, w, Midnight).value, db.(days := db.days + [[]]))
  {
    hide Inv, SliceKept, FitsSchema, Aligned;
    var days', w' := db.days + [[]], w.(dawn := w.flushed);
    forall d | d in days' ensures LogTable(c, d) { assert d in db.days || d == []; }
    if w.hasSlice {
      assert days'[db.sliceDay..] == db.days[db.sliceDay..] + [[]];
      ConcatAppend(db.days[db.sliceDay..]);
      var past :| IsPast(db.days[db.sliceDay..], w, past);
      assert Survivors(w') == Survivors(w);
      assert IsPast(days'[db.sliceDay..], w', past);
    } else {
      assert w.log[w.flushed..w.flushed] == [];
    }
  }

  lemma {:induction false} ConcatAppend(days: seq<seq<Row<Command>>>)
    ensures Concat(days + [[]]) == Concat(days)
  {
    if days == [] {
      assert (days + [[]])[1..] == days;
    } else {
      assert (days + [[]])[1..] == days[1..] + [[]];
      ConcatAppend(days[1..]);
    }
  }

  /** `make_slice`: what is written is a slice of the engine, and the rows in the tables are all older. */
  method MakeSlice(e: Engine, db: Database, ghost w: World) returns (db': Database)
    requires Serves(e, w) && Keeps(e.c, w, db)
    ensures var w' := Next(e.c, w, TakeSlice).value; Serves(e, w') && Keeps(e.c, w', db')
  {
    hide Inv, IsSlice, TablesOk, FitsSchema, LogTable, EndsWith;
    var slice := DumpToDb(e);
    db' := Database(Some(slice), db.days, |db.days| - 1);
    SliceEnds(e.c, w, db);
  }

  lemma SliceEnds(c: Config, w: World, db: Database)
    requires Keeps(c, w, db)
    ensures EndsWith(db.days[|db.days| - 1..], Next(c, w, TakeSlice).value)
  {
    hide Inv, SliceKept, FitsSchema, LogTable;
    var w', day := Next(c, w, TakeSlice).value, db.days[|db.days| - 1];
    assert day in db.days && db.days[|db.days| - 1..] == [day];
    assert Concat([day]) == day by { assert [day][1..] == []; }
    assert Survivors(w')[w'.mark..] == [];
    assert day + Numbered(w'.mark + 1, []) == day;
    assert IsPast([day], w', day);
  }

  /** `init_from_db` in a new process: it starts from what the database keeps, or fails as the history says. */
  method InitFromDb(c: Config, db: Database, ghost w: World) returns (ok: bool, e: Engine)
    requires ConfigOk(c) && Keeps(c, w, db)
    ensures fresh(e) && fresh(e.ledger) && (forall j | 0 <= j < |e.markets| :: fresh(e.markets[j])) && e.c == c
    ensures ok == Next(c, w, Crash).Some?
    ensures ok ==> Serves(e, Next(c, w, Crash).value) && Keeps(c, Next(c, w, Crash).value, db)
  {
    hide Inv, SliceKept, FitsSchema, LogTable, EndsWith, Restarts;
    if db.slice.None? {
      ok, e := InitFromToday(c, db, w);
    } else {
      ok, e := InitFromLast(c, db, w);
    }
  }

  /** With a slice: restore it and replay the tables from its day on. */
  method InitFromLast(c: Config, db: Database, ghost w: World) returns (ok: bool, e: Engine)
    requires ConfigOk(c) && Keeps(c, w, db) && w.hasSlice
    ensures fresh(e) && fresh(e.ledger) && (forall j | 0 <= j < |e.markets| :: fresh(e.markets[j])) && e.c == c
    ensures ok == Next(c, w, Crash).Some?
    ensures ok ==> Serves(e, Next(c, w, Crash).value) && Keeps(c, Next(c, w, Crash).value, db)
  {
    hide Inv, IsSlice, TablesOk, FitsSchema, LogTable, Restore, Restarted, Aligned, ReplayDays, ReplayLog, Numbered,
      Concat;
    SchemaFits(c, w.sliced);
    SliceRestores(c, w.sliced, SliceOf(db.slice.value));
    RestartedInv(c, w.sliced);
    ghost var days, since := db.days[db.sliceDay..], Survivors(w)[w.mark..];
    ghost var past :| IsPast(days, w, past);
    ReplayDaysIsLog(c, Restarted(w.sliced), days, past, since, w.mark);
    e := new Engine(c);
    var operId;
    ok, operId := InitFromSlice(e, db.slice.value, db.days[db.sliceDay..], w.sliced);
    RecoveredInv(c, w);
    if ok {
      RestartKeeps(c, w, db, past);
    }
  }

  lemma RestartKeeps(c: Config, w: World, db: Database, past: seq<Row<Command>>)
    requires Keeps(c, w, db) && w.hasSlice && Next(c, w, Crash).Some? && IsPast(db.days[db.sliceDay..], w, past)
    ensures var w' := Next(c, w, Crash).value;
      Keeps(c, w', db) && |w'.log| == w.mark + |Survivors(w)[w.mark..]|
        && Numbered(w'.flushed + 1, w'.log[w'.flushed..]) == []
  {
    hide Inv, SliceKept, FitsSchema, LogTable, Recovered;
    var w' := Next(c, w, Crash).value;
    assert Survivors(w') == Survivors(w);
    assert IsPast(db.days[db.sliceDay..], w', past);
  }

  /** Without a slice: only the table of today is read, and its ids must begin with 1. */
  method InitFromToday(c: Config, db: Database, ghost w: World) returns (ok: bool, e: Engine)
    requires ConfigOk(c) && Keeps(c, w, db) && !w.hasSlice
    ensures fresh(e) && fresh(e.ledger) && (forall j | 0 <= j < |e.markets| :: fresh(e.markets[j])) && e.c == c
    ensures ok == Next(c, w, Crash).Some?
    ensures ok ==> Serves(e, Next(c, w, Crash).value) && Keeps(c, Next(c, w, Crash).value, db)
  {
    hide Inv, FitsSchema, Aligned, ReplayRows, ReplayLog, Numbered, Next, Keeps;
    TodayReplays(c, w, db);
    assert db.sliceDay < |db.days| by { DatabaseDays(c, w, db); }
    e := new Engine(c);
    var operId;
    ok, operId := LoadOperlog(e, Today(db), 0);
    if ok {
      e.StartOperlog(operId);
    }
  }

  lemma DatabaseDays(c: Config, w: World, db: Database)
    requires Keeps(c, w, db)
    ensures db.sliceDay < |db.days|
  {
  }

  /** What the table of today replays to, from nothing. */
  lemma TodayReplays(c: Config, w: World, db: Database)
    requires ConfigOk(c) && Keeps(c, w, db) && !w.hasSlice
    ensures Inv(c, InitialState(c)) && LogTable(c, Today(db)) && After(Today(db), 0) == Today(db)
    ensures forall r | r in Today(db) :: Aligned(c, r.value)
    ensures var out, next := ReplayRows(c, InitialState(c), Today(db), 0), Next(c, w, Crash);
      && (out.Some? <==> next.Some?)
      && (out.Some? ==>
            && out.value.0 == next.value.engine && out.value.1 == |next.value.log| && Keeps(c, next.value, db)
            && Numbered(next.value.flushed + 1, next.value.log[next.value.flushed..]) == [])
  {
    hide Inv, FitsSchema, Aligned, ReplayRows, ReplayLog;
    InitialInv(c);
    var cmds := w.log[w.dawn..w.flushed];
    assert Today(db) in db.days;
    AfterAll(Today(db), 0);
    RestartWithoutSlice(c, w.dawn + 1, Today(db), cmds);
    StartOk(c);
    EmptyRestarted(c);
    RecoveredInv(c, w);
    if !Stranded(w) {
      assert cmds == w.log[..w.flushed] == Survivors(w)[w.mark..];
      var w' := Next(c, w, Crash);
      if w'.Some? { assert w'.value.log[..w'.value.flushed] == cmds; }
    } else if w.flushed == w.dawn {
      assert cmds == [] && Start(c).log[0..0] == [];
    }
  }

  lemma EmptyRestarted(c: Config)
    ensures Restarted(InitialState(c)) == InitialState(c)
  {
    hide Column;
    var books := InitialState(c).books;
    forall i | 0 <= i < |books| ensures StoredBooks(books)[i] == books[i] {
      assert StoredSide([]) == [];
    }
    assert StoredBooks(books) == books && StoredBalance(map[]) == map[];
  }

  /** One request, or the timer of the update keys. */
  method Serve(e: Engine, event: Event, ghost db: Database, ghost w: World)
    requires Serves(e, w) && Keeps(e.c, w, db) && ItemAligned(e.c, Happens(event))
    modifies e, e.ledger, e.markets
    ensures var w' := Next(e.c, w, Happens(event)).value; Serves(e, w') && Keeps(e.c, w', db)
  {
    hide Inv, SliceKept, FitsSchema, LogTable, Aligned, Step;
    match event
    case Request(cmd) =>
      var reply := e.Handle(cmd, LIVE);
      ServeKeeps(e.c, w, db, event);
    case Forget(keys) =>
      e.ForgetUpdates(keys);
      ServeKeeps(e.c, w, db, event);
  }

  lemma ServeKeeps(c: Config, w: World, db: Database, event: Event)
    requires Keeps(c, w, db) && ItemAligned(c, Happens(event))
    ensures var w' := Next(c, w, Happens(event)).value;
      var log := Happen(c, w.engine, event).log;
      && Keeps(c, w', db) && w'.log == w.log + log
      && Numbered(w.flushed + 1, w'.log[w.flushed..]) == Numbered(w.flushed + 1, w.log[w.flushed..])
        + Numbered(|w.log| + 1, log)
  {
    hide Inv, SliceKept, FitsSchema, LogTable, Aligned, Happen;
    var w', log := Next(c, w, Happens(event)).value, Happen(c, w.engine, event).log;
    assert w'.log[w.flushed..] == w.log[w.flushed..] + log;
    assert Survivors(w') == Survivors(w);
    if w.hasSlice {
      var past :| IsPast(db.days[db.sliceDay..], w, past);
      assert IsPast(db.days[db.sliceDay..], w', past);
    } else {
      assert w'.log[w.dawn..w.flushed] == w.log[w.dawn..w.flushed];
    }
  }
  lemma SameService(e: Engine, w: World, w': World)
    requires Serves(e, w) && w'.engine == w.engine && w'.log == w.log && w'.flushed == w.flushed
    ensures Serves(e, w')
  {
  }

  /** One item of a history. A crash leaves nothing of the process but what is in the database. */
  method Advance(c: Config, item: Item, e: Engine, db: Database, ghost w: World)
    returns (ok: bool, e': Engine, db': Database)
    requires ConfigOk(c) && WorldOk(c, w) && ItemAligned(c, item) && e.c == c && Serves(e, w) && Keeps(c, w, db)
    modifies e, e.ledger, e.markets
    ensures e'.c == c && ok == Next(c, w, item).Some?
    ensures ok ==> Serves(e', Next(c, w, item).value) && Keeps(c, Next(c, w, item).value, db')
    ensures e' == e || (fresh(e') && fresh(e'.ledger) && forall i | 0 <= i < |e'.markets| :: fresh(e'.markets[i]))
  {
    hide Inv, Keeps, Aligned, Serves;
    ok, e', db' := true, e, db;
    match item {
      case Happens(event) => Serve(e, event, db, w);
      case Flush => db' := FlushLog(e, db, w);
      case Midnight =>
        MidnightKeeps(c, w, db);
        SameService(e, w, Next(c, w, Midnight).value);
        db' := db.(days := db.days + [[]]);
      case TakeSlice => db' := MakeSlice(e, db, w);
      case Crash => ok, e' := InitFromDb(c, db, w);
    }
  }

  /** The server plays every history as the specification says: it fails to start where the specification does,
    and else its engine is the engine of the history and its log goes on with the id after the last command. */
  method PlayHistory(c: Config, items: seq<Item>) returns (ok: bool, e: Engine)
    requires ConfigOk(c) && FitsSchema(c) && ItemsAligned(c, items)
    ensures WorldOk(c, Start(c)) && ok == Play(c, Start(c), items).Some?
    ensures ok ==> Serves(e, Play(c, Start(c), items).value)
  {
    hide Inv, FitsSchema, Next, Keeps, Aligned, Serves;
    var db;
    e, db := Begin(c);
    ghost var w := Start(c);
    ghost var end := Play(c, w, items);
    var i := 0;
    assert items[0..] == items;
    while i < |items|
      invariant 0 <= i <= |items| && fresh(e) && fresh(e.ledger)
        && (forall j | 0 <= j < |e.markets| :: fresh(e.markets[j])) && e.c == c
      invariant WorldOk(c, w) && Serves(e, w) && Keeps(c, w, db)
      invariant ItemsAligned(c, items[i..]) && Play(c, w, items[i..]) == end
    {
      ghost var next := Next(c, w, items[i]);
      assert items[i..][0] == items[i] && items[i..][1..] == items[i + 1..] && items[i] in items[i..];
      ok, e, db := Advance(c, items[i], e, db, w);
      if !ok {
        return;
      }
      w := next.value;
      i := i + 1;
    }
    ok := true;
  }
}
