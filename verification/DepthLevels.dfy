/** The levels of a book (`get_depth` and `get_depth_merge` in `matchengine/me_server.c`). */
module DepthLevels {
  import opened Decimal
  import opened Orders
  import opened DepthDiff
  import opened MarketStore

  function Towards(side: Side): Direction {
    if side == ASK then RISING else FALLING
  }

  /** `mpd_divmod` for a price: the integer quotient. */
  function Quotient(price: Dec, interval: Dec): Dec
    requires interval > 0.0
  {
    Div(price, interval).Floor as real
  }

  /** The level of a price: the price itself for interval zero, else the next multiple of the interval, up for asks
    and down for bids. */
  function LevelPrice(side: Side, interval: Dec, price: Dec): Dec
    requires interval >= 0.0
  {
    if interval == 0.0 then price
    else
      var down := Mul(interval, Quotient(price, interval));
      if side == BID || price - down == 0.0 then down else down + interval
  }

  lemma Scaled(q: Dec, d: Dec, interval: Dec)
    requires interval > 0.0 && q <= d < q + 1.0
    ensures Mul(interval, q) <= Mul(interval, d) < Mul(interval, q) + interval
  {
    if q < d { MulStrict(interval, q, d); }
    MulStrict(interval, d, q + 1.0);
    MulSplit(interval, q, 1.0);
  }

  /** The quotient times the interval is the greatest such multiple at or below the price. */
  lemma QuotientBounds(price: Dec, interval: Dec)
    requires interval > 0.0
    ensures Mul(interval, Quotient(price, interval)) <= price < Mul(interval, Quotient(price, interval)) + interval
  {
    var d := Div(price, interval);
    Scaled(d.Floor as real, d, interval);
    assert Mul(interval, d) == price;
  }

  /** Quotients are integers, so that two that differ do so by at least one interval. */
  lemma QuotientOrder(p: Dec, q: Dec, interval: Dec)
    requires interval > 0.0 && p <= q
    ensures var a, b := Mul(interval, Quotient(p, interval)), Mul(interval, Quotient(q, interval));
      a == b || a + interval <= b
  {
    QuotientBounds(p, interval);
    QuotientBounds(q, interval);
    var m, n := Div(p, interval).Floor, Div(q, interval).Floor;
    hide Mul, Div;
    if m < n {
      Apart(interval, m as real, n as real);
    } else if n < m {
      Apart(interval, n as real, m as real);
    }
  }

  lemma Apart(interval: Dec, m: Dec, n: Dec)
    requires interval > 0.0 && m + 1.0 <= n
    ensures Mul(interval, m) + interval <= Mul(interval, n)
  {
    if m + 1.0 < n { MulStrict(interval, m + 1.0, n); }
    MulSplit(interval, m, 1.0);
  }

  /** A later order of the side belongs to the level of an earlier one if and only if its price is not past it; else
    its level is further on. */
  lemma SameLevel(side: Side, interval: Dec, p: Dec, q: Dec)
    requires interval >= 0.0 && (if side == ASK then p <= q else q <= p)
    ensures var x, y := LevelPrice(side, interval, p), LevelPrice(side, interval, q);
      && (x == y || Ahead(Towards(side), x, y))
      && (interval > 0.0 ==> (x == y <==> if side == ASK then x >= q else x <= q))
  {
    hide Mul, Quotient;
    if interval > 0.0 {
      QuotientBounds(p, interval);
      QuotientBounds(q, interval);
      if side == ASK { QuotientOrder(p, q, interval); } else { QuotientOrder(q, p, interval); }
    }
  }

  // ----- What a level means

  /** Prices that may stand for a level: whole multiples of the interval, or any price if there is none. */
  ghost predicate OnInterval(level: Dec, interval: Dec) {
    interval == 0.0 || exists k: int :: Times(k, interval) == level
  }

  /** The prices that belong to a level: only its own without an interval; else, for asks, those down to one interval
    below it, and for bids those up to one interval above it. */
  predicate Within(side: Side, interval: Dec, level: Dec, price: Dec) {
    if interval == 0.0 then price == level
    else if side == ASK then level - interval < price <= level
    else level <= price < level + interval
  }

  /** Every price is put under the one level that it belongs to. */
  lemma LevelMeaning(side: Side, interval: Dec, price: Dec, level: Dec)
    requires interval >= 0.0
    ensures OnInterval(LevelPrice(side, interval, price), interval)
    ensures Within(side, interval, LevelPrice(side, interval, price), price)
    ensures OnInterval(level, interval) ==> (Within(side, interval, level, price) <==>
      LevelPrice(side, interval, price) == level)
  {
    var p := LevelPrice(side, interval, price);
    if interval > 0.0 {
      var n := Div(price, interval).Floor;
      QuotientBounds(price, interval);
      assert Times(n, interval) == Mul(interval, Quotient(price, interval));
      assert Times(n + 1, interval) == Mul(interval, Quotient(price, interval)) + interval;
      hide Div, Mul, Quotient;
      if OnInterval(level, interval) {
        var k: int :| Times(k, interval) == p;
        var j: int :| Times(j, interval) == level;
        MultiplesApart(k, j, interval);
      }
    }
  }

  lemma MultiplesApart(k: int, j: int, interval: Dec)
    requires interval > 0.0
    ensures k < j ==> Times(k, interval) + interval <= Times(j, interval)
    ensures j < k ==> Times(j, interval) + interval <= Times(k, interval)
  {
    hide Mul;
    assert Times(k, interval) == Mul(interval, k as real) && Times(j, interval) == Mul(interval, j as real) by {
      MulCommutes(interval, k as real);
      MulCommutes(interval, j as real);
      TimesIsMul(k, interval);
      TimesIsMul(j, interval);
    }
    if k < j { Apart(interval, k as real, j as real); }
    if j < k { Apart(interval, j as real, k as real); }
  }

  lemma TimesIsMul(k: int, interval: Dec)
    ensures Times(k, interval) == Mul(k as real, interval)
  {
  }

  // ----- Grouping a side

  function SumLeft(s: seq<Order>): Dec {
    if s == [] then 0.0 else s[0].left + SumLeft(s[1..])
  }

  /** What a side offers at the level `price`. */
  function LeftAt(s: seq<Order>, side: Side, interval: Dec, price: Dec): Dec
    requires interval >= 0.0
  {
    if s == [] then 0.0
    else
      var first := if LevelPrice(side, interval, s[0].price) == price then s[0].left else 0.0;
      first + LeftAt(s[1..], side, interval, price)
  }

  /** Orders of the same level that stand next to each other make up one level. */
  function Levels(s: seq<Order>, side: Side, interval: Dec): seq<Level>
    requires interval >= 0.0
  {
    if s == [] then []
    else
      var price, later := LevelPrice(side, interval, s[0].price), Levels(s[1..], side, interval);
      if later != [] && later[0].price == price then [Level(price, s[0].left + later[0].amount)] + later[1..]
      else [Level(price, s[0].left)] + later
  }

  function SumAmounts(levels: seq<Level>): Dec {
    if levels == [] then 0.0 else levels[0].amount + SumAmounts(levels[1..])
  }

  /** A side in matching order, of orders with something left. */
  ghost predicate BookSide(s: seq<Order>, side: Side) {
    Sorted(s) && OneSide(s, side) && forall o | o in s :: o.left > 0.0
  }

  lemma BookSideTail(s: seq<Order>, side: Side)
    requires BookSide(s, side) && s != []
    ensures BookSide(s[1..], side) && s[0].left > 0.0
    ensures forall i | 0 < i < |s| :: if side == ASK then s[0].price <= s[i].price else s[i].price <= s[0].price
  {
    SortedTail(s);
    forall i | 0 < i < |s| ensures if side == ASK then s[0].price <= s[i].price else s[i].price <= s[0].price {
      assert s[0] in s && s[i] in s && Precedes(s[0], s[i]);
    }
  }

  lemma LevelsFirst(s: seq<Order>, side: Side, interval: Dec)
    requires interval >= 0.0 && s != []
    ensures Levels(s, side, interval) != []
      && Levels(s, side, interval)[0].price == LevelPrice(side, interval, s[0].price)
  {
  }

  /** The levels are strictly ordered, and each has a positive amount. */
  lemma {:induction false} LevelsListed(s: seq<Order>, side: Side, interval: Dec)
    requires BookSide(s, side) && interval >= 0.0
    ensures Listed(Levels(s, side, interval), Towards(side))
  {
    hide LevelPrice, BookSide;
    if s != [] {
      BookSideTail(s, side);
      LevelsListed(s[1..], side, interval);
      var later := Levels(s[1..], side, interval);
      if |s| > 1 {
        LevelsFirst(s[1..], side, interval);
        SameLevel(side, interval, s[0].price, s[1].price);
      }
    }
  }

  /** An order's level does not appear among the levels of orders behind it that are further on. */
  lemma {:induction false} LeftAtNone(s: seq<Order>, side: Side, interval: Dec, price: Dec)
    requires interval >= 0.0 && forall o | o in s :: LevelPrice(side, interval, o.price) != price
    ensures LeftAt(s, side, interval, price) == 0.0
  {
    hide LevelPrice;
    if s != [] { LeftAtNone(s[1..], side, interval, price); }
  }

  /** Where the orders behind do not begin with the same level, none of them is of that level. */
  lemma NoneBehind(s: seq<Order>, side: Side, interval: Dec)
    requires BookSide(s, side) && interval >= 0.0 && |s| > 1
    requires LevelPrice(side, interval, s[1].price) != LevelPrice(side, interval, s[0].price)
    ensures LeftAt(s[1..], side, interval, LevelPrice(side, interval, s[0].price)) == 0.0
  {
    hide LevelPrice, BookSide;
    BookSideTail(s, side);
    BookSideTail(s[1..], side);
    SameLevel(side, interval, s[0].price, s[1].price);
    forall o | o in s[1..] ensures LevelPrice(side, interval, o.price) != LevelPrice(side, interval, s[0].price) {
      var i :| 0 <= i < |s[1..]| && s[1..][i] == o;
      if i > 0 { SameLevel(side, interval, s[1].price, o.price); }
    }
    LeftAtNone(s[1..], side, interval, LevelPrice(side, interval, s[0].price));
  }

  /** Each level has the sum of what is left of exactly the orders of that level. */
  lemma {:induction false} LevelAmounts(s: seq<Order>, side: Side, interval: Dec)
    requires BookSide(s, side) && interval >= 0.0
    ensures forall l | l in Levels(s, side, interval) :: l.amount == LeftAt(s, side, interval, l.price)
  {
    hide LevelPrice, BookSide;
    if s != [] {
      var t := s[1..];
      BookSideTail(s, side);
      LevelAmounts(t, side, interval);
      LevelsListed(s, side, interval);
      var p, later, all := LevelPrice(side, interval, s[0].price), Levels(t, side, interval), Levels(s, side, interval);
      if t != [] { LevelsFirst(t, side, interval); }
      forall l | l in all ensures l.amount == LeftAt(s, side, interval, l.price) {
        var i :| 0 <= i < |all| && all[i] == l;
        if i == 0 {
          if later != [] && later[0].price != p { NoneBehind(s, side, interval); }
          if later != [] && later[0].price == p { assert later[0] in later; }
        } else {
          assert all[0].price != l.price;
          assert l in later;
        }
      }
    }
  }

  /** There is a level for exactly the prices that orders are put under. */
  lemma {:induction false} LevelPrices(s: seq<Order>, side: Side, interval: Dec, price: Dec)
    requires interval >= 0.0
    ensures (exists l :: l in Levels(s, side, interval) && l.price == price) <==>
      exists o :: o in s && LevelPrice(side, interval, o.price) == price
  {
    hide LevelPrice;
    if s != [] {
      LevelPrices(s[1..], side, interval, price);
      var p, later, all := LevelPrice(side, interval, s[0].price), Levels(s[1..], side, interval),
        Levels(s, side, interval);
      assert all[0].price == p && all[0] in all;
      assert s == [s[0]] + s[1..];
      assert later != [] ==> later == [later[0]] + later[1..];
      assert forall l :: l in all ==> l == all[0] || l in later;
      assert forall l :: l in later ==> l in all || l.price == p;
    }
  }

  /** All levels together have what all orders together have left. */
  lemma {:induction false} LevelsTotal(s: seq<Order>, side: Side, interval: Dec)
    requires interval >= 0.0
    ensures SumAmounts(Levels(s, side, interval)) == SumLeft(s)
  {
    hide LevelPrice;
    if s != [] { LevelsTotal(s[1..], side, interval); }
  }

  // ----- The loops

  function First(levels: seq<Level>, limit: nat): seq<Level> {
    if |levels| <= limit then levels else levels[..limit]
  }

  lemma {:induction false} SumLeftLast(s: seq<Order>, o: Order)
    ensures SumLeft(s + [o]) == SumLeft(s) + o.left
  {
    if s == [] {
      assert s + [o] == [o] && [o][1..] == [];
    } else {
      assert (s + [o])[1..] == s[1..] + [o];
      SumLeftLast(s[1..], o);
    }
  }

  /** A run of orders of one level, up to an order of another level, gives the first level. */
  lemma {:induction false} LevelRun(s: seq<Order>, n: nat, side: Side, interval: Dec, price: Dec)
    requires interval >= 0.0 && 0 < n <= |s| && forall i | 0 <= i < n :: LevelPrice(side, interval, s[i].price) == price
    requires n == |s| || LevelPrice(side, interval, s[n].price) != price
    ensures Levels(s, side, interval) == [Level(price, SumLeft(s[..n]))] + Levels(s[n..], side, interval)
    decreases n
  {
    hide LevelPrice;
    assert s[..n][1..] == s[1..][..n - 1];
    if n == 1 {
      if |s| > 1 { LevelsFirst(s[1..], side, interval); }
      assert s[..1][1..] == [];
    } else {
      LevelRun(s[1..], n - 1, side, interval, price);
      assert s[1..][n - 1..] == s[n..];
    }
  }

  /** One turn of the outer loop: `i` is the order at which a level begins and `j` the one at which the next begins. */
  lemma LevelTurn(s: seq<Order>, i: nat, j: nat, side: Side, interval: Dec, price: Dec, sofar: seq<Level>, limit: nat)
    requires interval >= 0.0 && i < j <= |s| && |sofar| < limit
      && forall k | i <= k < j :: LevelPrice(side, interval, s[k].price) == price
    requires j == |s| || LevelPrice(side, interval, s[j].price) != price
    ensures sofar + First(Levels(s[i..], side, interval), limit - |sofar|) ==
      sofar + [Level(price, SumLeft(s[i..j]))] + First(Levels(s[j..], side, interval), limit - |sofar| - 1)
  {
    hide LevelPrice, Levels, SumLeft;
    LevelRun(s[i..], j - i, side, interval, price);
    assert s[i..][..j - i] == s[i..j] && s[i..][j - i..] == s[j..];
  }

  /** A side of `get_depth`: orders of equal price, one level after the other, until there are `limit` levels. */
  method SideDepth(ids: seq<OrderId>, orders: map<OrderId, Order>, side: Side, limit: nat) returns (levels: seq<Level>)
    requires (forall id | id in ids :: id in orders) && BookSide(Deref(ids, orders), side)
    ensures levels == First(Levels(Deref(ids, orders), side, 0.0), limit)
    ensures DepthOf(Deref(ids, orders), side, 0.0, limit, levels)
  {
    hide Levels, SumLeft, BookSide, DepthOf;
    ghost var s := Deref(ids, orders);
    levels := [];
    var i, index := 0, 0;
    assert s[0..] == s;
    while i < |ids| && index < limit
      invariant i <= |ids| && index == |levels| <= limit
      invariant levels + First(Levels(s[i..], side, 0.0), limit - |levels|) == First(Levels(s, side, 0.0), limit)
      decreases |ids| - i
    {
      index := index + 1;
      ghost var begin := i;
      var order := OrderAt(ids, orders, i);
      var price, amount := order.price, order.left;
      SumLeftOne(s, i);
      i := i + 1;
      while i < |ids|
        invariant begin < i <= |ids| && amount == SumLeft(s[begin..i])
        invariant forall k | begin <= k < i :: s[k].price == price
      {
        order := OrderAt(ids, orders, i);
        if price == order.price {
          amount := amount + order.left;
          SumLeftOn(s, begin, i);
        } else {
          break;
        }
        i := i + 1;
      }
      LevelTurn(s, begin, i, side, 0.0, price, levels, limit);
      levels := levels + [Level(price, amount)];
    }
    LevelsEnd(s, i, side, 0.0);
    LevelsMeaning(s, side, 0.0, limit);
  }

  function OrderAt(ids: seq<OrderId>, orders: map<OrderId, Order>, i: nat): (o: Order)
    requires (forall id | id in ids :: id in orders) && i < |ids|
    ensures o == Deref(ids, orders)[i]
  {
    assert ids[i] in ids;
    orders[ids[i]]
  }

  lemma SumLeftOne(s: seq<Order>, i: nat)
    requires i < |s|
    ensures SumLeft(s[i..i + 1]) == s[i].left
  {
    assert s[i..i + 1] == [s[i]] && [s[i]][1..] == [];
  }

  lemma SumLeftOn(s: seq<Order>, begin: nat, i: nat)
    requires begin <= i < |s|
    ensures SumLeft(s[begin..i + 1]) == SumLeft(s[begin..i]) + s[i].left
  {
    SumLeftLast(s[begin..i], s[i]);
    assert s[begin..i + 1] == s[begin..i] + [s[i]];
  }

  lemma LevelsEnd(s: seq<Order>, i: nat, side: Side, interval: Dec)
    requires interval >= 0.0 && i <= |s|
    ensures i == |s| ==> Levels(s[i..], side, interval) == []
    ensures First(Levels(s[i..], side, interval), 0) == []
  {
  }

  /** A side of `get_depth_merge`, for an interval above zero. */
  method SideDepthMerge(ids: seq<OrderId>, orders: map<OrderId, Order>, side: Side, limit: nat, interval: Dec)
    returns (levels: seq<Level>)
    requires interval > 0.0 && (forall id | id in ids :: id in orders) && BookSide(Deref(ids, orders), side)
    ensures levels == First(Levels(Deref(ids, orders), side, interval), limit)
    ensures DepthOf(Deref(ids, orders), side, interval, limit, levels)
  {
    hide Levels, SumLeft, BookSide, Mul, Quotient, DepthOf;
    ghost var s := Deref(ids, orders);
    levels := [];
    var i, index := 0, 0;
    assert s[0..] == s;
    while i < |ids| && index < limit
      invariant i <= |ids| && index == |levels| <= limit
      invariant levels + First(Levels(s[i..], side, interval), limit - |levels|)
        == First(Levels(s, side, interval), limit)
      decreases |ids| - i
    {
      index := index + 1;
      ghost var begin := i;
      var order := OrderAt(ids, orders, i);
      var q := Quotient(order.price, interval);
      var price := Mul(interval, q);
      if side == ASK && order.price - price != 0.0 {
        price := price + interval;
      }
      var amount := order.left;
      SumLeftOne(s, i);
      i := i + 1;
      while i < |ids|
        invariant begin < i <= |ids| && amount == SumLeft(s[begin..i])
        invariant forall k | begin <= k < i :: LevelPrice(side, interval, s[k].price) == price
      {
        order := OrderAt(ids, orders, i);
        BookSideOrder(s, begin, i, side);
        SameLevel(side, interval, s[begin].price, order.price);
        if (side == ASK && price >= order.price) || (side == BID && price <= order.price) {
          amount := amount + order.left;
          SumLeftOn(s, begin, i);
        } else {
          break;
        }
        i := i + 1;
      }
      LevelTurn(s, begin, i, side, interval, price, levels, limit);
      levels := levels + [Level(price, amount)];
    }
    LevelsEnd(s, i, side, interval);
    LevelsMeaning(s, side, interval, limit);
  }

  lemma BookSideOrder(s: seq<Order>, i: nat, j: nat, side: Side)
    requires BookSide(s, side) && i < j < |s|
    ensures if side == ASK then s[i].price <= s[j].price else s[j].price <= s[i].price
  {
    assert s[i] in s && s[j] in s && Precedes(s[i], s[j]);
  }

  /** Every resting order has something left. */
  ghost predicate Positive(m: MarketT)
    reads m
  {
    forall id | id in m.orders :: m.orders[id].left > 0.0
  }

  lemma SidesOfMarket(m: MarketT)
    requires m.Valid() && Positive(m)
    ensures BookSide(Deref(m.asks, m.orders), ASK) && BookSide(Deref(m.bids, m.orders), BID)
  {
    DerefMembers(m.asks, m.orders, ASK);
    DerefMembers(m.bids, m.orders, BID);
    forall o | o in Deref(m.asks, m.orders) ensures o.left > 0.0 {
      var i :| 0 <= i < |m.asks| && Deref(m.asks, m.orders)[i] == o;
      assert m.asks[i] in m.asks;
    }
    forall o | o in Deref(m.bids, m.orders) ensures o.left > 0.0 {
      var i :| 0 <= i < |m.bids| && Deref(m.bids, m.orders)[i] == o;
      assert m.bids[i] in m.bids;
    }
  }

  /** A depth reply: what the subscription protocol needs of it, and that a limit leaves a prefix of the whole depth. */
  lemma FirstIsGood(s: seq<Order>, side: Side, interval: Dec, limit: nat)
    requires BookSide(s, side) && interval >= 0.0
    ensures var levels := First(Levels(s, side, interval), limit);
      && Good(levels, Towards(side), limit) && levels <= Levels(s, side, interval)
      && (forall l | l in levels :: l.amount == LeftAt(s, side, interval, l.price))
      && (|Levels(s, side, interval)| <= limit ==> SumAmounts(levels) == SumLeft(s))
  {
    hide Levels, LeftAt, SumAmounts, SumLeft, BookSide;
    LevelsListed(s, side, interval);
    LevelAmounts(s, side, interval);
    LevelsTotal(s, side, interval);
  }

  /** What is left of the orders whose price belongs to a level. */
  function LeftWithin(s: seq<Order>, side: Side, interval: Dec, level: Dec): Dec {
    if s == [] then 0.0
    else
      var first := if Within(side, interval, level, s[0].price) then s[0].left else 0.0;
      first + LeftWithin(s[1..], side, interval, level)
  }

  /** What the reply says of a side. Its levels are multiples of the interval in the order of the side; each has the
    sum of what is left of exactly the orders that belong to it, and there is such an order; and an order without a
    level is further on than all of them, of which there are then as many as the limit allows. */
  ghost predicate DepthOf(s: seq<Order>, side: Side, interval: Dec, limit: nat, levels: seq<Level>) {
    && |levels| <= limit
    && (forall i, j | 0 <= i < j < |levels| ::
      if side == ASK then levels[i].price < levels[j].price else levels[j].price < levels[i].price)
    && (forall l | l in levels ::
      && OnInterval(l.price, interval) && l.amount == LeftWithin(s, side, interval, l.price) > 0.0
      && exists o :: o in s && Within(side, interval, l.price, o.price))
    && (forall o | o in s ::
      || (exists l :: l in levels && Within(side, interval, l.price, o.price))
      || (|levels| == limit && forall l | l in levels :: if side == ASK then l.price < o.price else o.price < l.price))
  }

  lemma {:induction false} LeftWithinIsAt(s: seq<Order>, side: Side, interval: Dec, level: Dec)
    requires interval >= 0.0 && OnInterval(level, interval)
    ensures LeftWithin(s, side, interval, level) == LeftAt(s, side, interval, level)
  {
    hide LevelPrice, Within, OnInterval;
    if s != [] {
      LevelMeaning(side, interval, s[0].price, level);
      LeftWithinIsAt(s[1..], side, interval, level);
    }
  }

  /** A level is a multiple of the interval that orders belong to, and has what exactly these have left. */
  lemma LevelUsed(s: seq<Order>, side: Side, interval: Dec, l: Level)
    requires BookSide(s, side) && interval >= 0.0 && l in Levels(s, side, interval)
    ensures OnInterval(l.price, interval) && exists o :: o in s && Within(side, interval, l.price, o.price)
    ensures l.amount == LeftWithin(s, side, interval, l.price) > 0.0
  {
    hide LevelPrice, Levels, LeftAt, LeftWithin, BookSide, Within, OnInterval;
    LevelPrices(s, side, interval, l.price);
    var o :| o in s && LevelPrice(side, interval, o.price) == l.price;
    LevelMeaning(side, interval, o.price, l.price);
    LevelAmounts(s, side, interval);
    LevelsListed(s, side, interval);
    LeftWithinIsAt(s, side, interval, l.price);
  }

  /** An order belongs to a level, or is past all of as many levels as the limit allows. */
  lemma OrderCovered(s: seq<Order>, side: Side, interval: Dec, limit: nat, o: Order)
    requires BookSide(s, side) && interval >= 0.0 && o in s
    ensures var levels := First(Levels(s, side, interval), limit);
      || (exists l :: l in levels && Within(side, interval, l.price, o.price))
      || (|levels| == limit && forall l | l in levels :: if side == ASK then l.price < o.price else o.price < l.price)
  {
    hide LevelPrice, Levels, BookSide, Within, OnInterval, Listed;
    var all := Levels(s, side, interval);
    var levels, p := First(all, limit), LevelPrice(side, interval, o.price);
    LevelMeaning(side, interval, o.price, p);
    LevelPrices(s, side, interval, p);
    LevelsListed(s, side, interval);
    var l :| l in all && l.price == p;
    if l !in levels {
      forall k | k in levels ensures if side == ASK then k.price < o.price else o.price < k.price {
        LevelsApart(all, limit, side, k, l);
        LevelUsed(s, side, interval, k);
        BeyondLevel(side, interval, k.price, p, o.price);
      }
    }
  }

  lemma LevelsMeaning(s: seq<Order>, side: Side, interval: Dec, limit: nat)
    requires BookSide(s, side) && interval >= 0.0
    ensures DepthOf(s, side, interval, limit, First(Levels(s, side, interval), limit))
  {
    hide Levels, LeftWithin, BookSide, Within, OnInterval;
    var levels := First(Levels(s, side, interval), limit);
    LevelsListed(s, side, interval);
    forall l | l in levels
      ensures OnInterval(l.price, interval) && l.amount == LeftWithin(s, side, interval, l.price) > 0.0
        && exists o :: o in s && Within(side, interval, l.price, o.price)
    {
      LevelUsed(s, side, interval, l);
    }
    forall o | o in s
      ensures (exists l :: l in levels && Within(side, interval, l.price, o.price))
        || (|levels| == limit && forall l | l in levels :: if side == ASK then l.price < o.price else o.price < l.price)
    {
      OrderCovered(s, side, interval, limit, o);
    }
  }

  lemma LevelsApart(all: seq<Level>, limit: nat, side: Side, k: Level, l: Level)
    requires Listed(all, Towards(side)) && k in First(all, limit) && l in all && l !in First(all, limit)
    ensures Ahead(Towards(side), k.price, l.price) && |First(all, limit)| == limit
  {
    var i :| 0 <= i < |all| && all[i] == l;
    var j :| 0 <= j < |First(all, limit)| && First(all, limit)[j] == k;
    assert First(all, limit)[j] == all[j];
    FirstHas(all, limit, i);
  }

  lemma FirstHas(all: seq<Level>, limit: nat, i: nat)
    requires i < |all|
    ensures i < limit ==> all[i] in First(all, limit)
  {
    if i < limit && limit < |all| { assert all[..limit][i] == all[i]; }
  }

  lemma BeyondLevel(side: Side, interval: Dec, k: Dec, l: Dec, price: Dec)
    requires interval >= 0.0 && OnInterval(k, interval) && OnInterval(l, interval) && Within(side, interval, l, price)
    requires Ahead(Towards(side), k, l)
    ensures if side == ASK then k < price else price < k
  {
    if interval > 0.0 {
      var i: int :| Times(i, interval) == k;
      var j: int :| Times(j, interval) == l;
      hide Times;
      MultiplesApart(i, j, interval);
    }
  }

  /** `get_depth` and `get_depth_merge`, as the depth command chooses between them. */
  method GetDepth(m: MarketT, limit: nat, interval: Dec) returns (asks: seq<Level>, bids: seq<Level>)
    requires m.Valid() && Positive(m) && interval >= 0.0
    ensures asks == First(Levels(m.View().asks, ASK, interval), limit) && Good(asks, RISING, limit)
    ensures bids == First(Levels(m.View().bids, BID, interval), limit) && Good(bids, FALLING, limit)
    ensures DepthOf(m.View().asks, ASK, interval, limit, asks) && DepthOf(m.View().bids, BID, interval, limit, bids)
  {
    hide Levels, BookSide, First, Listed, DepthOf;
    SidesOfMarket(m);
    if interval == 0.0 {
      asks := SideDepth(m.asks, m.orders, ASK, limit);
      bids := SideDepth(m.bids, m.orders, BID, limit);
    } else {
      asks := SideDepthMerge(m.asks, m.orders, ASK, limit, interval);
      bids := SideDepthMerge(m.bids, m.orders, BID, limit, interval);
    }
    FirstIsGood(m.View().asks, ASK, interval, limit);
    FirstIsGood(m.View().bids, BID, interval, limit);
  }

  /** `market_get_status` */
  method MarketGetStatus(m: MarketT) returns (askCount: nat, askAmount: Dec, bidCount: nat, bidAmount: Dec)
    requires m.Valid()
    ensures askCount == |m.View().asks| && askAmount == SumLeft(m.View().asks)
    ensures bidCount == |m.View().bids| && bidAmount == SumLeft(m.View().bids)
  {
    hide SumLeft, Sorted;
    askCount, bidCount := |m.asks|, |m.bids|;
    askAmount := SideAmount(m.asks, m.orders);
    bidAmount := SideAmount(m.bids, m.orders);
  }

  method SideAmount(ids: seq<OrderId>, orders: map<OrderId, Order>) returns (amount: Dec)
    requires forall id | id in ids :: id in orders
    ensures amount == SumLeft(Deref(ids, orders))
  {
    ghost var s := Deref(ids, orders);
    amount := 0.0;
    for i := 0 to |ids|
      invariant amount == SumLeft(s[0..i])
    {
      SumLeftOn(s, 0, i);
      amount := amount + OrderAt(ids, orders, i).left;
    }
    assert s[0..|ids|] == s;
  }
}
