/** Orders, markets and the two sorted sides of a book (`matchengine/me_market.h`, `me_market.c`). */
module Orders {
  import opened Decimal
  import opened Balances

  type OrderId = nat

  datatype Side = ASK | BID
  datatype OrderType = LIMIT | MARKET

  datatype Order = Order(
    id: OrderId, kind: OrderType, side: Side, user: UserId,
    price: Dec, amount: Dec, takerFee: Dec, makerFee: Dec,
    left: Dec, freeze: Dec, dealStock: Dec, dealMoney: Dec, dealFee: Dec)

  datatype Market = Market(
    stock: Asset, money: Asset, stockPrec: nat, moneyPrec: nat, feePrec: nat, minAmount: Dec)

  /** The configuration checks of `market_create`, and that a market trades two different assets. */
  predicate MarketOk(assets: Assets, m: Market) {
    && m.stock in assets && m.money in assets && m.stock != m.money
    && m.stockPrec + m.moneyPrec <= assets[m.money].precSave
    && m.stockPrec + m.feePrec <= assets[m.stock].precSave
    && m.moneyPrec + m.feePrec <= assets[m.money].precSave
  }

  function Opposite(side: Side): Side {
    if side == ASK then BID else ASK
  }

  /** The asset an order of this side pays with, and so locks while it rests. */
  function GiveAsset(m: Market, side: Side): Asset {
    if side == ASK then m.stock else m.money
  }

  /** What an order of this side pays for a trade of `amount` at `price`. */
  function Give(side: Side, price: Dec, amount: Dec): Dec {
    if side == ASK then amount else Mul(price, amount)
  }

  function Compare(x: Dec, y: Dec): int {
    if x < y then -1 else if x == y then 0 else 1
  }

  /** `order_match_compare`: best price first, then the older order. */
  function OrderMatchCompare(a: Order, b: Order): int {
    if a.id == b.id then 0
    else if a.kind != b.kind then 1
    else
      var cmp := if a.side == ASK then Compare(a.price, b.price) else Compare(b.price, a.price);
      if cmp != 0 then cmp else if a.id > b.id then 1 else -1
  }

  predicate Precedes(a: Order, b: Order) {
    OrderMatchCompare(a, b) < 0
  }

  ghost predicate Sorted(s: seq<Order>) {
    forall i, j | 0 <= i < j < |s| :: Precedes(s[i], s[j])
  }

  /** All orders on one side of a book are limit orders of that side. */
  ghost predicate OneSide(s: seq<Order>, side: Side) {
    forall o | o in s :: o.kind == LIMIT && o.side == side
  }

  /** On one side the comparator is a strict total order that never ties distinct orders. */
  lemma CompareIsTotalOrder(a: Order, b: Order, c: Order)
    requires a.kind == b.kind == c.kind && a.side == b.side == c.side
    ensures OrderMatchCompare(a, b) == 0 <==> a.id == b.id
    ensures Precedes(a, b) <==> OrderMatchCompare(b, a) > 0
    ensures Precedes(a, b) && Precedes(b, c) && a.id != c.id ==> Precedes(a, c)
    ensures Precedes(a, b) && Precedes(b, a) ==> false
  {
  }

  /** Price and time priority, said without the comparator: the better price comes first, and of orders at the same
    price the older one, which has the smaller id. */
  ghost predicate PriceTime(s: seq<Order>, side: Side) {
    forall i, j | 0 <= i < j < |s| ::
      && (if side == ASK then s[i].price <= s[j].price else s[i].price >= s[j].price)
      && (s[i].price == s[j].price ==> s[i].id < s[j].id)
  }

  /** A side is sorted by the comparator exactly if it is in price and time priority and repeats no id. */
  lemma SortedIsPriceTime(s: seq<Order>, side: Side)
    requires OneSide(s, side)
    ensures Sorted(s) <==> PriceTime(s, side) && forall i, j | 0 <= i < j < |s| :: s[i].id != s[j].id
  {
    forall i, j | 0 <= i < j < |s|
      ensures var better := if side == ASK then s[i].price < s[j].price else s[i].price > s[j].price;
        Precedes(s[i], s[j]) <==> s[i].id != s[j].id && (better || (s[i].price == s[j].price && s[i].id < s[j].id))
    {
      assert s[i] in s && s[j] in s;
    }
  }

  /** `skiplist_insert`: after every order that precedes the new one. */
  function Insert(s: seq<Order>, o: Order): seq<Order> {
    if s == [] then [o]
    else if Precedes(s[0], o) then [s[0]] + Insert(s[1..], o)
    else [o] + s
  }

  /** `skiplist_find` and `skiplist_delete`: drop the order that compares equal, if there is one. */
  function Remove(s: seq<Order>, id: OrderId): seq<Order> {
    if s == [] then []
    else if s[0].id == id then s[1..]
    else [s[0]] + Remove(s[1..], id)
  }

  lemma {:induction false} InsertElements(s: seq<Order>, o: Order)
    ensures forall x :: x in Insert(s, o) <==> x == o || x in s
    ensures |Insert(s, o)| == |s| + 1
  {
    if s != [] && Precedes(s[0], o) {
      InsertElements(s[1..], o);
      assert s == [s[0]] + s[1..];
    }
  }

  lemma {:induction false} InsertSorted(s: seq<Order>, o: Order, side: Side)
    requires Sorted(s) && OneSide(s, side) && o.kind == LIMIT && o.side == side
    requires forall x | x in s :: x.id != o.id
    ensures Sorted(Insert(s, o)) && OneSide(Insert(s, o), side)
  {
    InsertElements(s, o);
    if s != [] && Precedes(s[0], o) {
      InsertSorted(s[1..], o, side);
      InsertElements(s[1..], o);
      SortedCons(s[0], Insert(s[1..], o));
    } else if s != [] {
      forall x | x in s
        ensures Precedes(o, x)
      {
        var i :| 0 <= i < |s| && s[i] == x;
        CompareIsTotalOrder(s[0], o, x);
        CompareIsTotalOrder(o, s[0], x);
      }
      SortedCons(o, s);
    }
  }

  lemma SortedCons(o: Order, s: seq<Order>)
    requires Sorted(s) && forall x | x in s :: Precedes(o, x)
    ensures Sorted([o] + s)
  {
  }

  lemma SortedTail(s: seq<Order>)
    requires Sorted(s) && s != []
    ensures Sorted(s[1..]) && forall x | x in s[1..] :: Precedes(s[0], x)
  {
  }

  lemma {:induction false} RemoveElements(s: seq<Order>, id: OrderId)
    requires Sorted(s)
    ensures forall x :: x in Remove(s, id) <==> x in s && x.id != id
    ensures Sorted(Remove(s, id))
  {
    if s != [] {
      assert s == [s[0]] + s[1..];
      SortedTail(s);
      RemoveElements(s[1..], id);
      if s[0].id == id {
        forall x | x in s[1..] ensures x.id != id {
          assert Precedes(s[0], x);
        }
      } else {
        SortedCons(s[0], Remove(s[1..], id));
      }
    }
  }

  /** Orders on a sorted side have distinct ids. */
  lemma IdsIdentify(s: seq<Order>, a: Order, b: Order)
    requires Sorted(s) && a in s && b in s && a.id == b.id
    ensures a == b
  {
    var i :| 0 <= i < |s| && s[i] == a;
    var j :| 0 <= j < |s| && s[j] == b;
    DistinctIds(s);
  }

  lemma DistinctIds(s: seq<Order>)
    requires Sorted(s)
    ensures forall i, j | 0 <= i < j < |s| :: s[i].id != s[j].id
  {
    forall i, j | 0 <= i < j < |s| ensures s[i].id != s[j].id {
      assert Precedes(s[i], s[j]);
    }
  }

  /** Two sorted sides with the same orders are the same sequence, however they were built. */
  lemma {:induction false} SortedUnique(s: seq<Order>, t: seq<Order>, side: Side)
    requires Sorted(s) && Sorted(t) && OneSide(s, side) && OneSide(t, side)
    requires forall x :: x in s <==> x in t
    ensures s == t
  {
    EmptyTogether(s, t);
    if s != [] {
      SortedHeadsAgree(s, t, side);
      SortedTail(s);
      SortedTail(t);
      assert s == [s[0]] + s[1..] && t == [t[0]] + t[1..];
      forall x ensures x in s[1..] <==> x in t[1..] {
        if x in s[1..] { assert x in t && Precedes(s[0], x); }
        if x in t[1..] { assert x in s && Precedes(t[0], x); }
      }
      SortedUnique(s[1..], t[1..], side);
    }
  }

  lemma EmptyTogether(s: seq<Order>, t: seq<Order>)
    requires forall x :: x in s <==> x in t
    ensures s == [] <==> t == []
    ensures s != [] ==> s[0] in t && t[0] in s
  {
    if s != [] { assert s[0] in t; }
    if t != [] { assert t[0] in s; }
  }

  lemma SortedHeadsAgree(s: seq<Order>, t: seq<Order>, side: Side)
    requires Sorted(s) && Sorted(t) && OneSide(s, side) && OneSide(t, side)
    requires s != [] && t != [] && s[0] in t && t[0] in s
    ensures s[0] == t[0]
  {
    var i :| 0 <= i < |t| && t[i] == s[0];
    var j :| 0 <= j < |s| && s[j] == t[0];
    if i > 0 && j > 0 {
      assert Precedes(t[0], t[i]) && Precedes(s[0], s[j]);
      CompareIsTotalOrder(s[0], t[0], s[0]);
    }
  }

  /** The collateral that a user's orders on one side hold. */
  ghost function SumFreeze(s: seq<Order>, user: UserId): Dec {
    if s == [] then 0.0
    else (if s[0].user == user then s[0].freeze else 0.0) + SumFreeze(s[1..], user)
  }

  lemma {:induction false} SumFreezeInsert(s: seq<Order>, o: Order, user: UserId)
    ensures SumFreeze(Insert(s, o), user) == SumFreeze(s, user) + (if o.user == user then o.freeze else 0.0)
  {
    if s != [] && Precedes(s[0], o) {
      SumFreezeInsert(s[1..], o, user);
      assert Insert(s, o)[1..] == Insert(s[1..], o);
    } else {
      assert ([o] + s)[1..] == s;
    }
  }

  lemma {:induction false} SumFreezeRemove(s: seq<Order>, o: Order, user: UserId)
    requires Sorted(s) && o in s
    ensures SumFreeze(Remove(s, o.id), user) == SumFreeze(s, user) - (if o.user == user then o.freeze else 0.0)
  {
    if s[0].id == o.id {
      IdsIdentify(s, s[0], o);
    } else {
      SortedTail(s);
      SumFreezeRemove(s[1..], o, user);
      assert Remove(s, o.id)[1..] == Remove(s[1..], o.id);
    }
  }

  lemma {:induction false} SumFreezeNonNeg(s: seq<Order>, user: UserId)
    requires forall o | o in s :: o.freeze >= 0.0
    ensures SumFreeze(s, user) >= 0.0
  {
    if s != [] {
      SumFreezeNonNeg(s[1..], user);
    }
  }
}
