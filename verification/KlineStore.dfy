/** The bars of a market at several resolutions and the queries over them (`marketprice/mp_message.c`). */
module KlineStore {
  import opened Wrappers
  import opened Kline

  type Bars = map<int, Bar>

  /** Seconds, minutes, hours. */
  predicate IsUnit(unit: int) {
    unit == 1 || unit == 60 || unit == 3600
  }

  /** From `from` on, there is a bar for exactly the stretches with deals, and it is the bar of these deals. */
  ghost predicate Exact(bars: Bars, deals: seq<Deal>, unit: int, from: int)
    requires unit > 0
  {
    forall t :: t >= from && t % unit == 0 ==>
      var ds := Between(deals, t, t + unit); (t in bars <==> ds != []) && (t in bars ==> bars[t] == BarOf(ds))
  }

  /** The bar for `t` is made if need be and updated. */
  function Touched(bars: Bars, t: int, price: real, amount: real): Bars {
    bars[t := Updated(if t in bars then bars[t] else New(price), price, amount)]
  }

  function Slot(second: int, unit: int): int
    requires unit > 0
  {
    second / unit * unit
  }

  lemma SlotOf(second: int, unit: int, t: int)
    requires IsUnit(unit) && t % unit == 0
    ensures t <= second < t + unit <==> t == Slot(second, unit)
  {
  }

  lemma BetweenMore(deals: seq<Deal>, d: Deal, from: int, to: int)
    ensures Between(deals + [d], from, to) == if from <= d.second < to then Between(deals, from, to) + [d]
      else Between(deals, from, to)
  {
    BetweenAppend(deals, [d], from, to);
    assert [d][1..] == [];
    assert Between(deals, from, to) + [] == Between(deals, from, to);
  }

  lemma BarMore(deals: seq<Deal>, d: Deal)
    ensures BarOf(deals + [d]) == Updated(if deals == [] then New(d.price) else BarOf(deals), d.price, d.amount)
  {
    if deals == [] {
      assert deals + [d] == [d];
      assert Updates(New(d.price), [d]) == Updated(New(d.price), d.price, d.amount);
    } else {
      UpdatesAppend(New(deals[0].price), deals, [d]);
      assert Updates(BarOf(deals), [d]) == Updated(BarOf(deals), d.price, d.amount);
    }
  }

  lemma TouchedExact(bars: Bars, deals: seq<Deal>, unit: int, from: int, d: Deal)
    requires IsUnit(unit) && Exact(bars, deals, unit, from)
    ensures Exact(Touched(bars, Slot(d.second, unit), d.price, d.amount), deals + [d], unit, from)
  {
    var bars' := Touched(bars, Slot(d.second, unit), d.price, d.amount);
    forall t | t >= from && t % unit == 0
      ensures var ds := Between(deals + [d], t, t + unit);
        (t in bars' <==> ds != []) && (t in bars' ==> bars'[t] == BarOf(ds))
    {
      hide Between, BarOf, Slot, Updated;
      SlotOf(d.second, unit, t);
      BetweenMore(deals, d, t, t + unit);
      BarMore(Between(deals, t, t + unit), d);
    }
  }

  // ----- Merging the bars of a range

  function Joined(bars: Bars, sofar: Option<Bar>, t: int): Option<Bar> {
    if t !in bars then sofar else Some(Merged(if sofar.None? then New(bars[t].open) else sofar.value, bars[t]))
  }

  function Joins(bars: Bars, sofar: Option<Bar>, t: int, limit: int, unit: int): Option<Bar>
    requires unit > 0
    decreases limit - t
  {
    if t >= limit then sofar else Joins(bars, Joined(bars, sofar, t), t + unit, limit, unit)
  }

  /** Where a loop from `t` by `unit` stops. */
  function Stop(t: int, limit: int, unit: int): (r: int)
    requires unit > 0
    ensures r >= t && r >= limit && (t < limit ==> r < limit + unit)
    decreases limit - t
  {
    if t >= limit then t else Stop(t + unit, limit, unit)
  }

  lemma {:induction false} StopExact(t: int, limit: int, unit: int)
    requires IsUnit(unit) && t <= limit && t % unit == 0 && limit % unit == 0
    ensures Stop(t, limit, unit) == limit
    decreases limit - t
  {
    if t < limit { StopExact(t + unit, limit, unit); }
  }

  lemma JoinedIsBar(bars: Bars, xs: seq<Deal>, ys: seq<Deal>, t: int)
    requires (t in bars <==> ys != []) && (t in bars ==> bars[t] == BarOf(ys))
    ensures Joined(bars, MaybeBar(xs), t) == MaybeBar(xs + ys)
  {
    hide BarOf, Merged, New;
    if ys == [] {
      assert xs + ys == xs;
    } else if xs == [] {
      assert xs + ys == ys;
      MergeFirst(ys);
    } else {
      MergeIsBar(xs, ys);
    }
  }

  /** Merging the bars of a range, in order, gives the bar of all deals of the range. */
  lemma {:induction false} JoinsIsBar(bars: Bars, deals: seq<Deal>, unit: int, from: int, lo: int, t: int, limit: int)
    requires IsUnit(unit) && InOrder(deals) && Exact(bars, deals, unit, from) && from <= t && lo <= t && t % unit == 0
    ensures Joins(bars, MaybeBar(Between(deals, lo, t)), t, limit, unit)
      == MaybeBar(Between(deals, lo, Stop(t, limit, unit)))
    decreases limit - t
  {
    hide Between, MaybeBar, Joined, InOrder;
    if t < limit {
      BetweenSplit(deals, lo, t, t + unit);
      JoinedIsBar(bars, Between(deals, lo, t), Between(deals, t, t + unit), t);
      assert (t + unit) % unit == 0;
      JoinsIsBar(bars, deals, unit, from, lo, t + unit, limit);
    }
  }

  lemma EmptyStretch(deals: seq<Deal>, from: int, to: int)
    requires to <= from
    ensures Between(deals, from, to) == []
  {
    NoneBetween(deals, from, to);
  }

  /** A minute is made of seconds, an hour of minutes or of seconds. */
  predicate Finer(small: int, big: int) {
    (small == 1 && (big == 60 || big == 3600)) || (small == 60 && big == 3600)
  }

  lemma FinerAligned(small: int, big: int, t: int)
    requires Finer(small, big) && t % big == 0
    ensures IsUnit(small) && IsUnit(big) && t % small == 0 && (t + big) % small == 0
  {
  }

  /** The bar of a minute is the merge of the bars of its seconds, and the bar of an hour that of its minutes. */
  lemma CoarseIsMerge(fine: Bars, coarse: Bars, deals: seq<Deal>, from: int, small: int, big: int, t: int)
    requires Finer(small, big) && InOrder(deals) && t >= from && t % big == 0
    requires Exact(fine, deals, small, from) && Exact(coarse, deals, big, from)
    ensures Joins(fine, None, t, t + big, small) == if t in coarse then Some(coarse[t]) else None
  {
    FinerAligned(small, big, t);
    hide Between, BarOf, InOrder, Joins, Finer, IsUnit;
    EmptyStretch(deals, t, t);
    StopExact(t, t + big, small);
    JoinsIsBar(fine, deals, small, from, t, t, t + big);
  }

  // ----- Rows of a query

  datatype Candle = Candle(time: int, bar: Bar)

  function LastPrice(deals: seq<Deal>): Option<real> {
    if deals == [] then None else Some(deals[|deals| - 1].price)
  }

  /** Per window the bar of its deals; an empty one is flat at the previous price, and left out where there is none. */
  function Rows(deals: seq<Deal>, before: Option<real>, start: int, end: int, interval: int): seq<Candle>
    requires interval > 0
    decreases end - start
  {
    if start > end then []
    else
      var ds := Between(deals, start, start + interval);
      if ds != [] then [Candle(start, BarOf(ds))] + Rows(deals, LastPrice(ds), start + interval, end, interval)
      else
        var flat := if before.None? then [] else [Candle(start, New(before.value))];
        flat + Rows(deals, before, start + interval, end, interval)
  }

  /** A window begins here. */
  predicate Window(t: int, start: int, interval: int)
    requires interval > 0
  {
    (t - start) % interval == 0
  }

  ghost predicate HasRow(rows: seq<Candle>, time: int) {
    exists r :: r in rows && r.time == time
  }

  /** A row is the bar of the deals of its window, or, if there are none, flat at the last price before it. */
  ghost predicate RowIs(deals: seq<Deal>, floor: int, interval: int, r: Candle) {
    var ds, before := Between(deals, r.time, r.time + interval), Between(deals, floor, r.time);
    if ds != [] then r.bar == BarOf(ds)
    else
      before != [] && var price := before[|before| - 1].price; r.bar == Bar(price, price, price, price, 0.0, 0.0)
  }

  /** The answer to a query: windows one after the other, in the order of time, each with its row, from the first one
    that has deals in it or before it. */
  ghost predicate RowsOf(deals: seq<Deal>, floor: int, start: int, end: int, interval: int, rows: seq<Candle>)
    requires interval > 0
  {
    && (forall i, j | 0 <= i < j < |rows| :: rows[i].time < rows[j].time)
    && (forall r | r in rows :: start <= r.time <= end && Window(r.time, start, interval))
    && (forall r | r in rows :: RowIs(deals, floor, interval, r))
    && (forall t | start <= t <= end && Window(t, start, interval) ::
      HasRow(rows, t) <==> Between(deals, floor, t + interval) != [])
  }

  lemma ModUnique(a: int, m: int, q: int, r: int)
    requires m > 0 && 0 <= r < m && a == q * m + r
    ensures a % m == r
  {
    var d := q - a / m;
    assert d * m == a % m - r;
    assert d > 0 ==> d * m >= m;
    assert d < 0 ==> d * m <= -m;
  }

  lemma WindowNext(t: int, start: int, interval: int)
    requires interval > 0
    ensures Window(t, start + interval, interval) <==> Window(t, start, interval)
    ensures Window(start, start, interval) && (start < t && Window(t, start, interval) ==> start + interval <= t)
  {
    var x := t - start;
    ModUnique(x - interval, interval, x / interval - 1, x % interval);
    ModUnique(0, interval, 0, 0);
    if 0 < x < interval { ModUnique(x, interval, 0, x); }
  }

  lemma {:induction false} RowsMeaning(deals: seq<Deal>, floor: int, start: int, end: int, interval: int)
    requires interval > 0 && InOrder(deals) && floor <= start
    ensures var before := LastPrice(Between(deals, floor, start));
      RowsOf(deals, floor, start, end, interval, Rows(deals, before, start, end, interval))
    decreases end - start
  {
    hide Between, BarOf, InOrder;
    if start <= end {
      var next, ds, past := start + interval, Between(deals, start, start + interval), Between(deals, floor, start);
      var rows, later := Rows(deals, LastPrice(past), start, end, interval),
        Rows(deals, LastPrice(past + ds), next, end, interval);
      BetweenSplit(deals, floor, start, next);
      RowsMeaning(deals, floor, next, end, interval);
      assert past + [] == past;
      assert ds != [] ==> (past + ds)[|past + ds| - 1] == ds[|ds| - 1];
      assert rows == (if ds == [] && past == [] then [] else [rows[0]]) + later;
      RowsCons(deals, floor, start, end, interval, rows, later);
    }
  }

  lemma AnswerMeaning(deals: seq<Deal>, floor: int, begin: int, end: int, interval: int)
    requires interval > 0 && InOrder(deals)
    ensures RowsOf(deals, Earlier(floor, begin), begin, end, interval,
      Rows(deals, LastPrice(Between(deals, floor, begin)), begin, end, interval))
  {
    hide Between, InOrder, Rows, RowsOf;
    if begin < floor {
      EmptyStretch(deals, floor, begin);
      EmptyStretch(deals, begin, begin);
    }
    RowsMeaning(deals, Earlier(floor, begin), begin, end, interval);
  }

  /** The row of the first window, if it has one, before those of the others. */
  lemma RowsCons(deals: seq<Deal>, floor: int, start: int, end: int, interval: int, rows: seq<Candle>,
          later: seq<Candle>)
    requires interval > 0 && start <= end && RowsOf(deals, floor, start + interval, end, interval, later)
    requires rows == later || (rows != [] && rows == [rows[0]] + later && rows[0].time == start
      && RowIs(deals, floor, interval, rows[0]))
    requires rows == later <==> Between(deals, floor, start + interval) == []
    ensures RowsOf(deals, floor, start, end, interval, rows)
  {
    hide RowIs, Between, Window;
    forall t ensures Window(t, start + interval, interval) <==> Window(t, start, interval) {
      WindowNext(t, start, interval);
    }
    WindowNext(start, start, interval);
    forall r | r in rows ensures start <= r.time <= end && Window(r.time, start, interval) {
      assert r in later || (rows != [] && r == rows[0]);
    }
    forall t | start <= t <= end && Window(t, start, interval)
      ensures HasRow(rows, t) <==> Between(deals, floor, t + interval) != []
    {
      WindowNext(t, start, interval);
      assert rows != later ==> rows[0] in rows;
      if t > start { assert HasRow(rows, t) <==> HasRow(later, t); }
    }
  }

  lemma ClearedExact(bars: Bars, kept: Bars, deals: seq<Deal>, unit: int, from: int, start: int)
    requires IsUnit(unit) && Exact(bars, deals, unit, from)
    requires forall t :: t in kept <==> t in bars && t >= start
    requires forall t :: t in kept ==> kept[t] == bars[t]
    ensures Exact(kept, deals, unit, if from < start then start else from)
  {
    hide Between, BarOf;
  }

  lemma HasAny(keys: set<int>)
    requires keys != {}
    ensures exists t :: t in keys
  {
    assert (forall t :: t !in keys) ==> keys == {};
  }

  /** `clear_dict`: the entries may come in any order. */
  method ClearDict(bars: Bars, start: int) returns (kept: Bars)
    ensures forall t :: t in kept <==> t in bars && t >= start
    ensures forall t :: t in kept ==> kept[t] == bars[t]
  {
    kept := bars;
    var keys := bars.Keys;
    while keys != {}
      invariant keys <= bars.Keys
      invariant forall t :: t in kept <==> t in bars && (t in keys || t >= start)
      invariant forall t :: t in kept ==> kept[t] == bars[t]
      decreases |keys|
    {
      HasAny(keys);
      var t :| t in keys;
      if t < start {
        kept := kept - {t};
      }
      keys := keys - {t};
    }
  }

  /** `get_last_kline`: its close is the price of the last deal of the range. */
  method GetLastKline(bars: Bars, start: int, end: int, interval: int, ghost deals: seq<Deal>, ghost from: int)
    returns (r: Option<Bar>)
    requires IsUnit(interval) && start % interval == 0 && end % interval == 0
    ensures InOrder(deals) && Exact(bars, deals, interval, from) && from <= end ==>
      (if r.None? then None else Some(r.value.close)) == LastPrice(Between(deals, end, start + interval))
  {
    hide Between, BarOf, InOrder, Exact;
    var t := start;
    EmptyStretch(deals, start + interval, start + interval);
    while t >= end
      invariant t % interval == 0 && t + interval <= start + interval
      invariant InOrder(deals) && Exact(bars, deals, interval, from) && from <= end ==>
        Between(deals, t + interval, start + interval) == []
      decreases t - end
    {
      if InOrder(deals) && Exact(bars, deals, interval, from) && from <= end {
        LastStep(bars, deals, interval, from, end, t, start + interval);
      }
      if t in bars {
        return Some(bars[t]);
      }
      assert (t - interval) % interval == 0;
      t := t - interval;
    }
    r := None;
    assert t + interval <= end;
    if InOrder(deals) && Exact(bars, deals, interval, from) && from <= end {
      if end <= start + interval {
        BetweenSplit(deals, t + interval, end, start + interval);
      } else {
        EmptyStretch(deals, end, start + interval);
      }
    }
  }

  lemma LastStep(bars: Bars, deals: seq<Deal>, unit: int, from: int, end: int, t: int, limit: int)
    requires IsUnit(unit) && InOrder(deals) && Exact(bars, deals, unit, from) && from <= end <= t && t + unit <= limit
      && t % unit == 0
    requires Between(deals, t + unit, limit) == []
    ensures if t in bars then LastPrice(Between(deals, end, limit)) == Some(bars[t].close)
      else Between(deals, t, limit) == []
  {
    hide Between, InOrder;
    var ds := Between(deals, t, t + unit);
    BetweenSplit(deals, t, t + unit, limit);
    BetweenSplit(deals, end, t, limit);
    assert ds + [] == ds;
    if t in bars {
      BarMeaning(ds);
      var all := Between(deals, end, t) + ds;
      assert all[|all| - 1] == ds[|ds| - 1];
    }
  }

  /** `market_info`: the bars by second, minute and hour. */
  class MarketInfo {
    const secMax: nat
    const minMax: nat
    const hourMax: nat
    var sec: Bars
    var min: Bars
    var hour: Bars
    var last: real
    /** All deals so far, and from when on the bars have been kept. */
    ghost var deals: seq<Deal>
    ghost var secFrom: int
    ghost var minFrom: int
    ghost var hourFrom: int

    ghost predicate Valid()
      reads this
    {
      && Exact(sec, deals, 1, secFrom) && Exact(min, deals, 60, minFrom) && Exact(hour, deals, 3600, hourFrom)
      && last == (if deals == [] then 0.0 else deals[|deals| - 1].price)
    }

    constructor (secMax: nat, minMax: nat, hourMax: nat)
      ensures Valid() && deals == [] && this.secMax == secMax && this.minMax == minMax && this.hourMax == hourMax
      ensures secFrom == minFrom == hourFrom == 0
    {
      this.secMax, this.minMax, this.hourMax := secMax, minMax, hourMax;
      sec, min, hour, last := map[], map[], map[], 0.0;
      deals, secFrom, minFrom, hourFrom := [], 0, 0, 0;
    }

    /** `market_update` */
    method Update(d: Deal)
      requires Valid()
      modifies this
      ensures Valid() && deals == old(deals) + [d] && secFrom == old(secFrom) && minFrom == old(minFrom)
        && hourFrom == old(hourFrom)
    {
      TouchedExact(sec, deals, 1, secFrom, d);
      TouchedExact(min, deals, 60, minFrom, d);
      TouchedExact(hour, deals, 3600, hourFrom, d);
      sec := Touch(sec, Slot(d.second, 1), d.price, d.amount);
      min := Touch(min, Slot(d.second, 60), d.price, d.amount);
      hour := Touch(hour, Slot(d.second, 3600), d.price, d.amount);
      last := d.price;
      deals := deals + [d];
    }

    static method Touch(bars: Bars, t: int, price: real, amount: real) returns (r: Bars)
      ensures r == Touched(bars, t, price, amount)
    {
      r := bars;
      if t !in r {
        r := r[t := New(price)];
      }
      r := r[t := Updated(r[t], price, amount)];
    }

    /** `clear_kline` for this market. */
    method Clear(now: nat)
      requires Valid()
      modifies this
      ensures Valid() && deals == old(deals)
      ensures forall t :: t in sec <==> t in old(sec) && t >= now - secMax
      ensures forall t :: t in min <==> t in old(min) && t >= now - now % 60 - minMax * 60
      ensures forall t :: t in hour <==> t in old(hour) && t >= now - now % 3600 - hourMax * 3600
      ensures secFrom == Max(old(secFrom), now - secMax) && minFrom == Max(old(minFrom), Slot(now, 60) - minMax * 60)
      ensures hourFrom == Max(old(hourFrom), Slot(now, 3600) - hourMax * 3600)
    {
      hide Between, BarOf;
      var secs := ClearDict(sec, now - secMax);
      var mins := ClearDict(min, now / 60 * 60 - minMax * 60);
      var hours := ClearDict(hour, now / 3600 * 3600 - hourMax * 3600);
      ClearedExact(sec, secs, deals, 1, secFrom, now - secMax);
      ClearedExact(min, mins, deals, 60, minFrom, now / 60 * 60 - minMax * 60);
      ClearedExact(hour, hours, deals, 3600, hourFrom, now / 3600 * 3600 - hourMax * 3600);
      sec, min, hour := secs, mins, hours;
      secFrom, minFrom := Max(secFrom, now - secMax), Max(minFrom, Slot(now, 60) - minMax * 60);
      hourFrom := Max(hourFrom, Slot(now, 3600) - hourMax * 3600);
    }

    /** The loop over the bars of a range. */
    method Join(bars: Bars, sofar: Option<Bar>, t: int, limit: int, unit: int) returns (r: Option<Bar>)
      requires unit > 0
      ensures r == Joins(bars, sofar, t, limit, unit)
    {
      r := sofar;
      var timestamp := t;
      while timestamp < limit
        invariant Joins(bars, r, timestamp, limit, unit) == Joins(bars, sofar, t, limit, unit)
      {
        if timestamp in bars {
          var item := bars[timestamp];
          if r == None {
            r := Some(New(item.open));
          }
          r := Some(Merged(r.value, item));
        }
        timestamp := timestamp + unit;
      }
    }

    /** `get_market_status`: the bar of the deals from the start of the period to the end of the minute that is
      under way, which is that of the period if no deal is stamped later than now. */
    method GetMarketStatus(period: nat, now: nat) returns (bar: Bar)
      requires Valid() && 0 < period <= secMax && period <= now
      ensures InOrder(deals) && secFrom <= now - period && minFrom <= Slot(now - period, 60) + 60 ==>
        var end := Stop(Slot(now - period, 60) + 60, now, 60);
        var ds := Between(deals, now - period, end); bar == if ds == [] then New(0.0) else BarOf(ds)
      ensures
        && InOrder(deals) && secFrom <= now - period && minFrom <= Slot(now - period, 60) + 60
        && (forall d :: d in deals ==> d.second < now)
        ==>
        var ds := Between(deals, now - period, now); bar == if ds == [] then New(0.0) else BarOf(ds)
    {
      hide Between, BarOf, InOrder, Exact, Joins, Stop;
      var start := now - period;
      var startMin := start / 60 * 60 + 60;
      var k := Join(sec, None, start, startMin, 1);
      k := Join(min, k, startMin, now, 60);
      bar := if k == None then New(0.0) else k.value;
      if InOrder(deals) && secFrom <= start && minFrom <= startMin {
        StatusIsBar(sec, min, deals, secFrom, minFrom, start, startMin, now);
        if forall d :: d in deals ==> d.second < now {
          NoneLater(deals, start, now, Stop(startMin, now, 60));
        }
      }
    }

    /** The loops of the k-line queries: `klast` is the bar before. */
    method Query(bars: Bars, floor: int, begin: int, end: int, interval: int, unit: int, ghost from: int)
      returns (rows: seq<Candle>)
      requires IsUnit(unit) && interval > 0 && interval % unit == 0 && begin % unit == 0 && floor % unit == 0
      ensures InOrder(deals) && Exact(bars, deals, unit, from) && from <= floor && from <= begin ==>
        && rows == Rows(deals, LastPrice(Between(deals, floor, begin)), begin, end, interval)
        && RowsOf(deals, Earlier(floor, begin), begin, end, interval, rows)
    {
      hide Between, BarOf, InOrder, Exact, Joins, Rows, New, LastPrice, RowsOf, Earlier;
      var start := begin;
      assert (start - unit) % unit == 0;
      var klast := GetLastKline(bars, start - unit, floor, unit, deals, from);
      rows := [];
      ghost var good := InOrder(deals) && Exact(bars, deals, unit, from) && from <= floor && from <= begin;
      ghost var all := Rows(deals, Close(klast), begin, end, interval);
      while start <= end
        invariant start >= begin && start % unit == 0
        invariant good ==> rows + Rows(deals, Close(klast), start, end, interval) == all
        decreases end - start
      {
        var k := Join(bars, None, start, start + interval, unit);
        if good {
          WindowIsBar(bars, deals, unit, from, start, interval);
          RowsStep(deals, klast, start, end, interval, k);
        }
        assert (start + interval) % unit == 0;
        if k == None {
          if klast == None {
            start := start + interval;
            continue;
          }
          k := Some(New(klast.value.close));
        }
        rows := rows + [Candle(start, k.value)];
        klast := k;
        start := start + interval;
      }
      if good {
        RowsEnd(deals, Close(klast), start, end, interval);
        AnswerMeaning(deals, floor, begin, end, interval);
      }
    }

    /** `get_market_kline_sec` */
    method GetKlineSec(start: nat, end: nat, interval: nat, now: nat) returns (rows: seq<Candle>)
      requires Valid() && interval > 0 && now >= secMax
      ensures var floor := now - secMax; var begin := Max(start, floor) / interval * interval;
        InOrder(deals) && secFrom <= floor && secFrom <= begin ==>
          && rows == Rows(deals, LastPrice(Between(deals, floor, begin)), begin, end, interval)
          && RowsOf(deals, Earlier(floor, begin), begin, end, interval, rows)
    {
      hide Between, InOrder, Exact, Rows, RowsOf, LastPrice, Earlier;
      var begin := start;
      if begin < now - secMax {
        begin := now - secMax;
      }
      begin := begin / interval * interval;
      rows := Query(sec, now - secMax, begin, end, interval, 1, secFrom);
    }

    /** `get_market_kline_min` */
    method GetKlineMin(start: nat, end: nat, interval: nat, now: nat) returns (rows: seq<Candle>)
      requires Valid() && interval > 0 && interval % 60 == 0 && now >= minMax * 60
      ensures var floor := Slot(now, 60) - minMax * 60; var begin := Max(start, floor) / interval * interval;
        InOrder(deals) && minFrom <= floor && minFrom <= begin ==>
          && rows == Rows(deals, LastPrice(Between(deals, floor, begin)), begin, end, interval)
          && RowsOf(deals, Earlier(floor, begin), begin, end, interval, rows)
    {
      hide Between, InOrder, Exact, Rows, RowsOf, LastPrice, Earlier;
      var startMin := now / 60 * 60 - minMax * 60;
      var begin: int := start;
      if begin < startMin {
        begin := startMin;
      }
      Multiple(begin / interval, interval);
      begin := begin / interval * interval;
      rows := Query(min, startMin, begin, end, interval, 60, minFrom);
    }
  }

  function Close(bar: Option<Bar>): Option<real> {
    if bar.None? then None else Some(bar.value.close)
  }

  /** One turn of the query loop adds one row, or none. */
  lemma RowsStep(deals: seq<Deal>, klast: Option<Bar>, start: int, end: int, interval: int, k: Option<Bar>)
    requires interval > 0 && start <= end && k == MaybeBar(Between(deals, start, start + interval))
    ensures Rows(deals, Close(klast), start, end, interval) ==
      if k.None? && klast.None? then Rows(deals, None, start + interval, end, interval)
      else var bar := if k.None? then New(klast.value.close) else k.value;
        [Candle(start, bar)] + Rows(deals, Some(bar.close), start + interval, end, interval)
  {
    hide Between, BarOf;
    var ds := Between(deals, start, start + interval);
    if ds != [] { BarMeaning(ds); }
  }

  lemma RowsEnd(deals: seq<Deal>, before: Option<real>, start: int, end: int, interval: int)
    requires interval > 0 && start > end
    ensures Rows(deals, before, start, end, interval) == []
  {
  }

  lemma Multiple(q: int, interval: nat)
    requires interval % 60 == 0
    ensures (q * interval) % 60 == 0
  {
    var r := interval / 60;
    assert q * (60 * r) == 60 * (q * r);
  }

  lemma WindowIsBar(bars: Bars, deals: seq<Deal>, unit: int, from: int, start: int, interval: int)
    requires IsUnit(unit) && InOrder(deals) && Exact(bars, deals, unit, from) && from <= start && start % unit == 0
      && interval > 0 && interval % unit == 0
    ensures Joins(bars, None, start, start + interval, unit) == MaybeBar(Between(deals, start, start + interval))
  {
    hide Between, InOrder, Exact, Joins;
    EmptyStretch(deals, start, start);
    assert (start + interval) % unit == 0;
    StopExact(start, start + interval, unit);
    JoinsIsBar(bars, deals, unit, from, start, start, start + interval);
  }

  function Max(a: int, b: int): int { if a < b then b else a }

  function Earlier(a: int, b: int): int { if a < b then a else b }

  /** Seconds up to the next minute and minutes from there: each deal is counted once. */
  lemma StatusIsBar(sec: Bars, min: Bars, deals: seq<Deal>, secFrom: int, minFrom: int, start: int, startMin: int,
          now: int)
    requires InOrder(deals) && Exact(sec, deals, 1, secFrom) && Exact(min, deals, 60, minFrom)
    requires secFrom <= start < startMin && minFrom <= startMin && startMin % 60 == 0
    ensures Joins(min, Joins(sec, None, start, startMin, 1), startMin, now, 60)
      == MaybeBar(Between(deals, start, Stop(startMin, now, 60)))
  {
    hide Between, InOrder, Exact, Joins, Stop;
    EmptyStretch(deals, start, start);
    JoinsIsBar(sec, deals, 1, secFrom, start, start, startMin);
    StopExact(start, startMin, 1);
    JoinsIsBar(min, deals, 60, minFrom, start, startMin, now);
  }

  lemma NoneLater(deals: seq<Deal>, start: int, now: int, end: int)
    requires InOrder(deals) && start <= now <= end && forall d :: d in deals ==> d.second < now
    ensures Between(deals, start, end) == Between(deals, start, now)
  {
    hide InOrder;
    BetweenSplit(deals, start, now, end);
    NoneBetween(deals, now, end);
    assert Between(deals, start, now) + [] == Between(deals, start, now);
  }
}
