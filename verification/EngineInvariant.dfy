/** What holds in every reachable state of the engine. */
module EngineInvariant {
  import opened Decimal
  import opened Balances
  import opened Orders
  import opened Matching
  import opened MatchingProofs
  import opened Execution
  import opened EngineSpec

  /** Every resting bid is strictly below every resting ask. */
  ghost predicate Uncrossed(b: Book) {
    forall x, y | x in b.asks && y in b.bids :: y.price < x.price
  }

  ghost predicate BookOk(m: Market, b: Book) {
    SideOk(m, b.asks, ASK) && SideOk(m, b.bids, BID) && Uncrossed(b)
  }

  /** An order with this id rests on this side of this book. */
  ghost predicate Has(books: seq<Book>, i: int, side: Side, id: OrderId) {
    0 <= i < |books| && exists o :: o in SideOf(books[i], side) && o.id == id
  }

  /** Order ids come from the counter and are used once, across both sides of all books. */
  ghost predicate IdsOk(books: seq<Book>, last: nat) {
    && (forall i: int, side: Side, id: OrderId :: Has(books, i, side, id) ==> 1 <= id <= last)
    && (forall i: int, s: Side, j: int, t: Side, id: OrderId ::
      Has(books, i, s, id) && Has(books, j, t, id) ==> i == j && s == t)
  }

  /** The collateral that a user's orders in one market lock of an asset. */
  ghost function LockedIn(m: Market, b: Book, user: UserId, asset: Asset): Dec {
    (if asset == m.stock then SumFreeze(b.asks, user) else 0.0)
      + (if asset == m.money then SumFreeze(b.bids, user) else 0.0)
  }

  ghost function Locked(ms: seq<Market>, bs: seq<Book>, user: UserId, asset: Asset): Dec
    requires |ms| == |bs|
  {
    if ms == [] then 0.0 else LockedIn(ms[0], bs[0], user, asset) + Locked(ms[1..], bs[1..], user, asset)
  }

  /** Each user's frozen balance is exactly the collateral of the user's open orders, over all markets. */
  ghost predicate FrozenIsLocked(c: Config, st: State)
    requires |c.markets| == |st.books|
  {
    forall u, a :: At(st.balance, Key(u, FREEZE, a)) == Locked(c.markets, st.books, u, a)
  }

  ghost predicate BooksOk(c: Config, st: State) {
    |c.markets| == |st.books| && forall i | 0 <= i < |st.books| :: BookOk(c.markets[i], st.books[i])
  }

  ghost predicate Inv(c: Config, st: State) {
    && ConfigOk(c) && Sound(c.assets, st.balance)
    && BooksOk(c, st) && IdsOk(st.books, st.lastOrder) && FrozenIsLocked(c, st)
  }

  lemma InvPriced(c: Config, st: State)
    requires BooksOk(c, st)
    ensures BooksPriced(st)
  {
    forall b | b in st.books ensures Priced(b.asks) && Priced(b.bids) {
      var i :| 0 <= i < |st.books| && st.books[i] == b;
      PricedSide(c.markets[i], b.asks, ASK);
      PricedSide(c.markets[i], b.bids, BID);
    }
  }

  lemma {:induction false} LockedEmpty(ms: seq<Market>, bs: seq<Book>, u: UserId, a: Asset)
    requires |ms| == |bs| && forall b | b in bs :: b == Book([], [])
    ensures Locked(ms, bs, u, a) == 0.0
  {
    if ms != [] {
      assert bs[0] in bs && forall b | b in bs[1..] :: b in bs;
      LockedEmpty(ms[1..], bs[1..], u, a);
    }
  }

  lemma InitialInv(c: Config)
    requires ConfigOk(c)
    ensures Inv(c, InitialState(c))
  {
    var st := InitialState(c);
    forall u, a ensures At(st.balance, Key(u, FREEZE, a)) == Locked(c.markets, st.books, u, a) {
      LockedEmpty(c.markets, st.books, u, a);
    }
  }

  lemma {:induction false} LockedUpdate(ms: seq<Market>, bs: seq<Book>, i: nat, b: Book, u: UserId, a: Asset)
    requires |ms| == |bs| && i < |bs|
    ensures Locked(ms, bs[i := b], u, a) == Locked(ms, bs, u, a) - LockedIn(ms[i], bs[i], u, a)
      + LockedIn(ms[i], b, u, a)
  {
    if i > 0 {
      LockedUpdate(ms[1..], bs[1..], i - 1, b, u, a);
      assert bs[i := b][1..] == bs[1..][i - 1 := b];
    } else {
      assert bs[i := b][1..] == bs[1..];
    }
  }

  lemma SideLocks(m: Market, s: seq<Order>, side: Side, u: UserId)
    requires SideOk(m, s, side)
    ensures SumFreeze(s, u) >= 0.0
  {
    hide Mul;
    forall o | o in s ensures o.freeze >= 0.0 {
      if side == BID { MulPos(o.price, o.left); }
    }
    SumFreezeNonNeg(s, u);
  }

  lemma LockedInNonNeg(m: Market, b: Book, u: UserId, a: Asset)
    requires BookOk(m, b)
    ensures LockedIn(m, b, u, a) >= 0.0
  {
    SideLocks(m, b.asks, ASK, u);
    SideLocks(m, b.bids, BID, u);
  }

  lemma {:induction false} LockedAtLeast(ms: seq<Market>, bs: seq<Book>, i: nat, u: UserId, a: Asset)
    requires |ms| == |bs| && i < |bs| && forall j | 0 <= j < |bs| :: BookOk(ms[j], bs[j])
    ensures Locked(ms, bs, u, a) >= LockedIn(ms[i], bs[i], u, a) >= 0.0
    decreases |ms|
  {
    LockedInNonNeg(ms[0], bs[0], u, a);
    if |ms| > 1 {
      LockedAtLeast(ms[1..], bs[1..], if i > 0 then i - 1 else 0, u, a);
    }
  }

  /** The frozen balances of all users cover the collateral on each side. */
  lemma SideCovered(c: Config, st: State, i: nat, side: Side)
    requires Inv(c, st) && i < |st.books|
    ensures Covered(c.markets[i], st.balance, SideOf(st.books[i], side), side)
  {
    var m, b := c.markets[i], st.books[i];
    assert m in c.markets;
    forall u ensures At(st.balance, Key(u, FREEZE, GiveAsset(m, side))) >= SumFreeze(SideOf(b, side), u) {
      LockedAtLeast(c.markets, st.books, i, u, GiveAsset(m, side));
      SideLocks(m, b.asks, ASK, u);
      SideLocks(m, b.bids, BID, u);
    }
  }

  // ----- Replacing one side of one book

  /** The frozen balances follow a change of one side. */
  ghost predicate FollowsSide(m: Market, b: Balance, b': Balance, side: Side, s: seq<Order>, s': seq<Order>) {
    forall u, a :: At(b', Key(u, FREEZE, a))
                   == At(b, Key(u, FREEZE, a))
                   + (if a == GiveAsset(m, side) then SumFreeze(s', u) - SumFreeze(s, u) else 0.0)
  }

  lemma FrozenAfterSide(c: Config, st: State, st': State, i: nat, side: Side, s: seq<Order>)
    requires ConfigOk(c) && |c.markets| == |st.books| && i < |st.books| && FrozenIsLocked(c, st)
    requires st'.books == st.books[i := WithSide(st.books[i], side, s)]
    requires FollowsSide(c.markets[i], st.balance, st'.balance, side, SideOf(st.books[i], side), s)
    ensures FrozenIsLocked(c, st')
  {
    var m, b := c.markets[i], st.books[i];
    assert m in c.markets;
    forall u, a ensures At(st'.balance, Key(u, FREEZE, a)) == Locked(c.markets, st'.books, u, a) {
      LockedUpdate(c.markets, st.books, i, WithSide(b, side, s), u, a);
    }
  }

  lemma BooksAfterSide(c: Config, st: State, st': State, i: nat, side: Side, s: seq<Order>)
    requires BooksOk(c, st) && i < |st.books|
    requires st'.books == st.books[i := WithSide(st.books[i], side, s)]
    requires SideOk(c.markets[i], s, side) && Uncrossed(WithSide(st.books[i], side, s))
    ensures BooksOk(c, st')
  {
  }

  /** A side that only lost orders or changed them in place. */
  ghost predicate Descends(s: seq<Order>, s': seq<Order>) {
    forall o | o in s' :: exists o' | o' in s :: SameOrder(o, o')
  }

  lemma UncrossedDescends(b: Book, side: Side, s: seq<Order>)
    requires Uncrossed(b) && Descends(SideOf(b, side), s)
    ensures Uncrossed(WithSide(b, side, s))
  {
    forall o | o in s ensures exists o' | o' in SideOf(b, side) :: o'.price == o.price {
      var o' :| o' in SideOf(b, side) && SameOrder(o, o');
      assert o'.price == o.price;
    }
  }

  lemma IdsDescend(books: seq<Book>, last: nat, i: nat, side: Side, s: seq<Order>)
    requires IdsOk(books, last) && i < |books| && Descends(SideOf(books[i], side), s)
    ensures IdsOk(books[i := WithSide(books[i], side, s)], last)
  {
    var books' := books[i := WithSide(books[i], side, s)];
    forall j, t, id | Has(books', j, t, id) ensures Has(books, j, t, id) {
      var o :| o in SideOf(books'[j], t) && o.id == id;
      if j == i && t == side {
        var o' :| o' in SideOf(books[i], side) && SameOrder(o, o');
      } else {
        assert o in SideOf(books[j], t);
      }
    }
  }

  lemma IdsInsert(books: seq<Book>, last: nat, i: nat, side: Side, o: Order)
    requires IdsOk(books, last) && i < |books| && o.id == last + 1
    ensures IdsOk(books[i := WithSide(books[i], side, Insert(SideOf(books[i], side), o))], last + 1)
  {
    var books' := books[i := WithSide(books[i], side, Insert(SideOf(books[i], side), o))];
    InsertElements(SideOf(books[i], side), o);
    forall j, t, id | Has(books', j, t, id) ensures Has(books, j, t, id) || (j == i && t == side && id == last + 1) {
      var p :| p in SideOf(books'[j], t) && p.id == id;
      assert p in SideOf(books[j], t) || (j == i && t == side && p == o);
    }
  }

  // ----- A match keeps the invariant

  /** A new order enters its match funded and consistent. */
  lemma MatchStarts(c: Config, st: State, i: nat, taker: Order)
    requires Inv(c, st) && i < |st.books| && TakerOk(c.markets[i], taker)
    requires Available(st, taker.user, GiveAsset(c.markets[i], taker.side)) >= Budget(taker)
    ensures MatchOk(c.assets, c.markets[i], StartMatch(st, i, taker)) && Priced(StartMatch(st, i, taker).makers)
  {
    hide Mul, TakerOk, Budget, Sound, Covered, Resting;
    assert c.markets[i] in c.markets;
    SideCovered(c, st, i, Opposite(taker.side));
    PricedSide(c.markets[i], SideOf(st.books[i], Opposite(taker.side)), Opposite(taker.side));
  }

  /** Every match leaves a state that satisfies the invariant. */
  lemma MatchKeepsInv(c: Config, st: State, i: nat, taker: Order)
    requires Inv(c, st) && i < |st.books| && TakerOk(c.markets[i], taker) && taker.id == st.lastOrder + 1
    requires Available(st, taker.user, GiveAsset(c.markets[i], taker.side)) >= Budget(taker)
    ensures var x := StartMatch(st, i, taker);
      var y := Execute(c.assets, c.markets[i], x);
      && MatchOk(c.assets, c.markets[i], x) && Priced(x.makers) && MatchOk(c.assets, c.markets[i], y)
      && SameOrder(taker, y.taker) && Inv(c, AfterMatch(st, i, y))
      && IdsOk(AfterMatch(st, i, y).books, st.lastOrder)
  {
    hide Mul, TakerOk, Budget, Sound, Covered, Resting, Execute, Stops, IdsOk, FrozenIsLocked;
    var m := c.markets[i];
    var x := StartMatch(st, i, taker);
    MatchStarts(c, st, i, taker);
    var y := Execute(c.assets, m, x);
    ExecuteKeeps(c.assets, m, x);
    var st', side := AfterMatch(st, i, y), Opposite(taker.side);
    FrozenAfterSide(c, st, st', i, side, y.makers);
    UncrossedDescends(st.books[i], side, y.makers);
    BooksAfterSide(c, st, st', i, side, y.makers);
    IdsDescend(st.books, st.lastOrder, i, side, y.makers);
    IdsGrow(st'.books, st.lastOrder, taker.id);
  }

  lemma IdsGrow(books: seq<Book>, last: nat, last': nat)
    requires IdsOk(books, last) && last <= last'
    ensures IdsOk(books, last')
  {
  }

  // ----- Putting the rest of a limit order on its side

  /** The rest of a limit order does not cross what is left of the other side. */
  lemma RestUncrossed(m: Market, b: Book, o: Order)
    requires BookOk(m, b) && o.kind == LIMIT
    requires var makers := SideOf(b, Opposite(o.side)); makers == [] || TooExpensive(o, makers[0])
    ensures forall x | x in SideOf(b, Opposite(o.side)) ::
      if o.side == ASK then x.price < o.price else o.price < x.price
  {
    var makers, side := SideOf(b, Opposite(o.side)), Opposite(o.side);
    forall x | x in makers ensures if o.side == ASK then x.price < o.price else o.price < x.price {
      var j :| 0 <= j < |makers| && makers[j] == x;
      if j > 0 {
        assert Precedes(makers[0], makers[j]);
        assert Resting(m, makers[0], side) && Resting(m, makers[j], side);
      }
    }
  }

  lemma PutKeepsInv(c: Config, st: State, i: nat, o: Order, last: nat)
    requires Inv(c, st) && i < |st.books| && IdsOk(st.books, last) && o.id == last + 1 == st.lastOrder
    requires LimitOk(c.markets[i], o) && o.left > 0.0
    requires Available(st, o.user, GiveAsset(c.markets[i], o.side)) >= Give(o.side, o.price, o.left)
    requires var makers := SideOf(st.books[i], Opposite(o.side)); makers == [] || TooExpensive(o, makers[0])
    ensures Inv(c, OrderPut(c, st, i, o))
    ensures Move(c.assets, st.balance, o.user, GiveAsset(c.markets[i], o.side), AVAILABLE,
      Give(o.side, o.price, o.left)).ok
    ensures forall a :: Total(OrderPut(c, st, i, o).balance, a) == Total(st.balance, a)
  {
    hide Mul, Sound, FrozenIsLocked, IdsOk, TradedOk, FeesOk, OnGrid;
    var m, b := c.markets[i], st.books[i];
    assert m in c.markets;
    var o' := o.(freeze := Give(o.side, o.price, o.left));
    var st', s := OrderPut(c, st, i, o), SideOf(b, o.side);
    MulPos(o.price, o.left);
    GiveOnGrid(c.assets, m, o.side, o.price, o.left);
    MoveChanges(c.assets, st.balance, o.user, GiveAsset(m, o.side), AVAILABLE, o'.freeze);
    forall u, a ensures At(st'.balance, Key(u, FREEZE, a))
        == At(st.balance, Key(u, FREEZE, a))
          + (if a == GiveAsset(m, o.side) then SumFreeze(Insert(s, o'), u) - SumFreeze(s, u) else 0.0) {
      SumFreezeInsert(s, o', u);
    }
    FrozenAfterSide(c, st, st', i, o.side, Insert(s, o'));
    FreshOrder(st.books, last, i, o.side, o.id);
    PricedSide(m, s, o.side);
    InsertSorted(s, o', o.side);
    InsertElements(s, o');
    RestUncrossed(m, b, o);
    RestsWhenPut(m, o);
    BooksAfterSide(c, st, st', i, o.side, Insert(s, o'));
    IdsInsert(st.books, last, i, o.side, o');
  }

  lemma RestsWhenPut(m: Market, o: Order)
    requires LimitOk(m, o) && o.left > 0.0
    ensures Resting(m, o.(freeze := Give(o.side, o.price, o.left)), o.side)
  {
    hide Mul;
  }

  lemma FreshOrder(books: seq<Book>, last: nat, i: nat, side: Side, id: OrderId)
    requires IdsOk(books, last) && i < |books| && id > last
    ensures forall x | x in SideOf(books[i], side) :: x.id != id
  {
    forall x | x in SideOf(books[i], side) ensures x.id != id {
      assert Has(books, i, side, x.id);
    }
  }

  /** A covered move between two balances of a user changes these two and no total. */
  lemma MoveChanges(assets: Assets, b: Balance, user: UserId, asset: Asset, from: Kind, amount: Dec)
    requires Sound(assets, b) && asset in assets
    requires 0.0 <= amount <= At(b, Key(user, from, asset)) && OnGrid(amount, assets[asset].precSave)
    ensures var r := Move(assets, b, user, asset, from, amount);
      && r.ok && Sound(assets, r.balance)
      && (forall k :: At(r.balance, k) == At(b, k) - (if k == Key(user, from, asset) then amount else 0.0)
                                          + (if k == Key(user, Other(from), asset) then amount else 0.0))
      && (forall a :: Total(r.balance, a) == Total(b, a))
  {
    hide Sound, Total;
    var source, target := Key(user, from, asset), Key(user, Other(from), asset);
    MoveExact(assets, b, user, asset, from, amount);
    PutChanges(b, target, amount);
    var mid := Put(b, target, At(b, target) + amount);
    assert At(mid, source) == At(b, source);
    PutChanges(mid, source, -amount);
  }

  // ----- Removing an order

  lemma CancelKeepsInv(c: Config, st: State, i: nat, o: Order)
    requires Inv(c, st) && i < |st.books| && o in SideOf(st.books[i], o.side)
    ensures Inv(c, OrderFinish(c, st, i, o))
    ensures Release(c.assets, c.markets[i], st.balance, o).ok
    ensures forall a :: Total(OrderFinish(c, st, i, o).balance, a) == Total(st.balance, a)
  {
    hide Mul, Sound, FrozenIsLocked, IdsOk, Uncrossed, Remove, Release, Total, Descends, SideOk, FollowsSide;
    var m, b := c.markets[i], st.books[i];
    var st', s := OrderFinish(c, st, i, o), SideOf(b, o.side);
    var s' := Remove(s, o.id);
    ReleaseFollows(c, st, i, o);
    FrozenAfterSide(c, st, st', i, o.side, s');
    RemoveKeepsSide(m, s, o.side, o.id);
    UncrossedDescends(b, o.side, s');
    BooksAfterSide(c, st, st', i, o.side, s');
    IdsDescend(st.books, st.lastOrder, i, o.side, s');
  }

  lemma RemoveKeepsSide(m: Market, s: seq<Order>, side: Side, id: OrderId)
    requires SideOk(m, s, side)
    ensures SideOk(m, Remove(s, id), side) && Descends(s, Remove(s, id))
  {
    hide Resting;
    RemoveElements(s, id);
    forall x | x in Remove(s, id) ensures exists o' | o' in s :: SameOrder(x, o') {
      assert SameOrder(x, x);
    }
  }

  /** Returning the collateral succeeds, and the frozen balances follow the side without the order. */
  lemma ReleaseFollows(c: Config, st: State, i: nat, o: Order)
    requires Inv(c, st) && i < |st.books| && o in SideOf(st.books[i], o.side)
    ensures var r, s := Release(c.assets, c.markets[i], st.balance, o), SideOf(st.books[i], o.side);
      && r.ok && Sound(c.assets, r.balance)
      && FollowsSide(c.markets[i], st.balance, r.balance, o.side, s, Remove(s, o.id))
      && (forall a :: Total(r.balance, a) == Total(st.balance, a))
  {
    hide Mul, Sound, FrozenIsLocked, IdsOk, TradedOk, FeesOk, OnGrid, Total, Uncrossed, Move;
    var m, s := c.markets[i], SideOf(st.books[i], o.side);
    assert m in c.markets;
    assert Resting(m, o, o.side);
    MulPos(o.price, o.left);
    GiveOnGrid(c.assets, m, o.side, o.price, o.left);
    OrderCovered(c, st, i, o);
    MoveChanges(c.assets, st.balance, o.user, GiveAsset(m, o.side), FREEZE, o.freeze);
    forall u ensures SumFreeze(Remove(s, o.id), u) - SumFreeze(s, u) == -(if o.user == u then o.freeze else 0.0) {
      SumFreezeRemove(s, o, u);
    }
  }

  /** The owner's frozen balance covers the collateral of each open order. */
  lemma OrderCovered(c: Config, st: State, i: nat, o: Order)
    requires Inv(c, st) && i < |st.books| && o in SideOf(st.books[i], o.side)
    ensures At(st.balance, Key(o.user, FREEZE, GiveAsset(c.markets[i], o.side))) >= o.freeze
  {
    hide Mul, Sound;
    var s, m := SideOf(st.books[i], o.side), c.markets[i];
    SideCovered(c, st, i, o.side);
    SumFreezeRemove(s, o, o.user);
    RemoveElements(s, o.id);
    SideLocks(m, Remove(s, o.id), o.side, o.user);
  }
}
