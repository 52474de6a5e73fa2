/** Bars of deals and their merging (`marketprice/mp_kline.c`). */
module Kline {
  import opened Wrappers

  /** A deal, at the second to which its time is cut. */
  datatype Deal = Deal(second: nat, price: real, amount: real)

  /** `kline_info`: a bar. */
  datatype Bar = Bar(open: real, close: real, high: real, low: real, volume: real, deal: real)

  /** `kline_info_new` */
  function New(price: real): Bar {
    Bar(price, price, price, price, 0.0, 0.0)
  }

  /** `kline_info_update` */
  function Updated(b: Bar, price: real, amount: real): Bar {
    Bar(b.open, price, if price > b.high then price else b.high, if price < b.low then price else b.low,
        b.volume + amount, b.deal + price * amount)
  }

  /** `kline_info_merge` */
  function Merged(b: Bar, u: Bar): Bar {
    Bar(b.open, u.close, if u.high > b.high then u.high else b.high, if u.low < b.low then u.low else b.low,
        b.volume + u.volume, b.deal + u.deal)
  }

  function Updates(b: Bar, deals: seq<Deal>): Bar
    decreases |deals|
  {
    if deals == [] then b else Updates(Updated(b, deals[0].price, deals[0].amount), deals[1..])
  }

  /** The bar of some deals: made at the first and updated by each. */
  function BarOf(deals: seq<Deal>): Bar
    requires deals != []
  {
    Updates(New(deals[0].price), deals)
  }

  function MaybeBar(deals: seq<Deal>): Option<Bar> {
    if deals == [] then None else Some(BarOf(deals))
  }

  // ----- What a bar says about its deals

  function Volume(deals: seq<Deal>): real {
    if deals == [] then 0.0 else deals[0].amount + Volume(deals[1..])
  }

  function Turnover(deals: seq<Deal>): real {
    if deals == [] then 0.0 else deals[0].price * deals[0].amount + Turnover(deals[1..])
  }

  ghost predicate Highest(high: real, deals: seq<Deal>) {
    (exists d :: d in deals && d.price == high) && forall d :: d in deals ==> d.price <= high
  }

  ghost predicate Lowest(low: real, deals: seq<Deal>) {
    (exists d :: d in deals && d.price == low) && forall d :: d in deals ==> d.price >= low
  }

  lemma {:induction false} UpdatesSum(b: Bar, deals: seq<Deal>)
    ensures var u := Updates(b, deals);
      u.open == b.open && u.volume == b.volume + Volume(deals) && u.deal == b.deal + Turnover(deals)
    ensures deals != [] ==> Updates(b, deals).close == deals[|deals| - 1].price
    decreases |deals|
  {
    if deals != [] {
      UpdatesSum(Updated(b, deals[0].price, deals[0].amount), deals[1..]);
      assert |deals| > 1 ==> deals[1..][|deals| - 2] == deals[|deals| - 1];
    }
  }

  lemma {:induction false} UpdatesRange(b: Bar, deals: seq<Deal>)
    ensures var u := Updates(b, deals);
      && (u.high == b.high || exists d :: d in deals && d.price == u.high) && u.high >= b.high
        && (forall d :: d in deals ==> d.price <= u.high)
      && (u.low == b.low || exists d :: d in deals && d.price == u.low) && u.low <= b.low
        && (forall d :: d in deals ==> d.price >= u.low)
    decreases |deals|
  {
    if deals != [] {
      UpdatesRange(Updated(b, deals[0].price, deals[0].amount), deals[1..]);
      assert forall d :: d in deals <==> d == deals[0] || d in deals[1..];
    }
  }

  /** A bar holds the first, last, highest and lowest price, the volume and the turnover of its deals. */
  lemma BarMeaning(deals: seq<Deal>)
    requires deals != []
    ensures var b := BarOf(deals);
      && b.open == deals[0].price && b.close == deals[|deals| - 1].price
      && Highest(b.high, deals) && Lowest(b.low, deals) && b.volume == Volume(deals) && b.deal == Turnover(deals)
  {
    UpdatesSum(New(deals[0].price), deals);
    UpdatesRange(New(deals[0].price), deals);
    assert deals[0] in deals;
  }

  // ----- Merging is updating by more deals

  lemma {:induction false} UpdatesAppend(b: Bar, xs: seq<Deal>, ys: seq<Deal>)
    ensures Updates(b, xs + ys) == Updates(Updates(b, xs), ys)
    decreases |xs|
  {
    if xs == [] {
      assert xs + ys == ys;
    } else {
      assert (xs + ys)[1..] == xs[1..] + ys;
      UpdatesAppend(Updated(b, xs[0].price, xs[0].amount), xs[1..], ys);
    }
  }

  lemma {:induction false} MergeUpdates(b: Bar, u: Bar, deals: seq<Deal>)
    requires u.low <= u.high
    ensures Merged(b, Updates(u, deals)) == Updates(Merged(b, u), deals)
    decreases |deals|
  {
    if deals != [] {
      MergeUpdates(b, Updated(u, deals[0].price, deals[0].amount), deals[1..]);
    }
  }

  /** Merging the bars of two runs of deals gives the bar of the two together. */
  lemma MergeIsBar(xs: seq<Deal>, ys: seq<Deal>)
    requires xs != [] && ys != []
    ensures Merged(BarOf(xs), BarOf(ys)) == BarOf(xs + ys)
  {
    var p, q := ys[0].price, ys[0].amount;
    MergeUpdates(BarOf(xs), New(p), ys);
    UpdatesAppend(New(xs[0].price), xs, ys);
    assert Updated(Merged(BarOf(xs), New(p)), p, q) == Updated(BarOf(xs), p, q);
  }

  /** A query starts a bar at the open of the first bar it finds and merges that bar into it, which gives the bar
    itself. */
  lemma MergeFirst(ys: seq<Deal>)
    requires ys != []
    ensures Merged(New(BarOf(ys).open), BarOf(ys)) == BarOf(ys)
  {
    UpdatesSum(New(ys[0].price), ys);
    UpdatesRange(New(ys[0].price), ys);
  }

  // ----- The deals of a stretch of time

  function Between(deals: seq<Deal>, from: int, to: int): seq<Deal> {
    if deals == [] then []
    else (if from <= deals[0].second < to then [deals[0]] else []) + Between(deals[1..], from, to)
  }

  predicate InOrder(deals: seq<Deal>) {
    forall i, j :: 0 <= i < j < |deals| ==> deals[i].second <= deals[j].second
  }

  lemma {:induction false} BetweenAppend(xs: seq<Deal>, ys: seq<Deal>, from: int, to: int)
    ensures Between(xs + ys, from, to) == Between(xs, from, to) + Between(ys, from, to)
  {
    if xs == [] {
      assert xs + ys == ys;
    } else {
      assert (xs + ys)[1..] == xs[1..] + ys;
      BetweenAppend(xs[1..], ys, from, to);
    }
  }

  lemma {:induction false} NoneBetween(deals: seq<Deal>, from: int, to: int)
    requires forall d :: d in deals ==> !(from <= d.second < to)
    ensures Between(deals, from, to) == []
  {
    if deals != [] { NoneBetween(deals[1..], from, to); }
  }

  /** For deals in the order of time, those of two adjacent stretches come one after the other. */
  lemma {:induction false} BetweenSplit(deals: seq<Deal>, from: int, mid: int, to: int)
    requires InOrder(deals) && from <= mid <= to
    ensures Between(deals, from, to) == Between(deals, from, mid) + Between(deals, mid, to)
  {
    if deals != [] {
      BetweenSplit(deals[1..], from, mid, to);
      if mid <= deals[0].second {
        NoneBetween(deals[1..], from, mid);
      }
    }
  }
}
