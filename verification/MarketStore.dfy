/** A market as the program keeps it (`market_t` in `matchengine/me_market.h`): the order dictionary, the
  lists of each user, and the two sorted sides. The lists and sides hold order ids, which stand for the
  pointers that they share with the dictionary, so a change of an order shows through all of them. */
module MarketStore {
  import opened Balances
  import opened Orders
  import opened EngineSpec

  function Deref(ids: seq<OrderId>, orders: map<OrderId, Order>): seq<Order>
    requires forall id | id in ids :: id in orders
  {
    seq(|ids|, i requires 0 <= i < |ids| => assert ids[i] in ids; orders[ids[i]])
  }

  /** `skiplist_insert` with `order_match_compare` */
  function InsertId(ids: seq<OrderId>, orders: map<OrderId, Order>, o: Order): seq<OrderId>
    requires forall id | id in ids :: id in orders
  {
    if ids == [] then [o.id]
    else if Precedes(orders[ids[0]], o) then [ids[0]] + InsertId(ids[1..], orders, o)
    else [o.id] + ids
  }

  /** `skiplist_find` then `skiplist_delete`: the comparator ties only an order with itself. */
  function RemoveId(ids: seq<OrderId>, id: OrderId): seq<OrderId> {
    if ids == [] then [] else if ids[0] == id then ids[1..] else [ids[0]] + RemoveId(ids[1..], id)
  }

  /** `skiplist_insert` with `order_id_compare`: newest first. */
  function InsertNewest(ids: seq<OrderId>, id: OrderId): seq<OrderId> {
    if ids == [] then [id] else if ids[0] > id then [ids[0]] + InsertNewest(ids[1..], id) else [id] + ids
  }

  ghost predicate Newest(ids: seq<OrderId>) {
    forall i, j | 0 <= i < j < |ids| :: ids[i] > ids[j]
  }

  // ----- What the index structures of a market satisfy

  /** A side holds limit orders of the dictionary under their own ids, in matching order. */
  ghost predicate SideHolds(ids: seq<OrderId>, orders: map<OrderId, Order>, side: Side) {
    && (forall id | id in ids ::
          id in orders && orders[id].id == id && orders[id].kind == LIMIT && orders[id].side == side)
    && Sorted(Deref(ids, orders))
  }

  /** The list of each user holds the user's orders, newest first, and nothing else. */
  ghost predicate ListsHold(users: map<UserId, seq<OrderId>>, orders: map<OrderId, Order>) {
    && (forall u | u in users :: Newest(users[u]) && forall id | id in users[u] :: id in orders && orders[id].user == u)
    && (forall id | id in orders :: orders[id].user in users && id in users[orders[id].user])
  }

  lemma DerefCons(ids: seq<OrderId>, orders: map<OrderId, Order>)
    requires ids != [] && forall id | id in ids :: id in orders
    ensures (forall id | id in ids[1..] :: id in orders) && Deref(ids, orders)[1..] == Deref(ids[1..], orders)
    ensures Deref(ids, orders) == [orders[ids[0]]] + Deref(ids[1..], orders)
    ensures forall id :: id in ids <==> id == ids[0] || id in ids[1..]
  {
    assert Deref(ids, orders)[1..] == Deref(ids[1..], orders);
    assert ids == [ids[0]] + ids[1..];
  }

  lemma DerefSame(ids: seq<OrderId>, orders: map<OrderId, Order>, orders': map<OrderId, Order>)
    requires forall id | id in ids :: id in orders && id in orders' && orders[id] == orders'[id]
    ensures Deref(ids, orders) == Deref(ids, orders')
  {
    forall i | 0 <= i < |ids| ensures orders[ids[i]] == orders'[ids[i]] { assert ids[i] in ids; }
  }

  lemma {:induction false} InsertIdDeref(ids: seq<OrderId>, orders: map<OrderId, Order>, o: Order)
    requires forall id | id in ids :: id in orders
    requires o.id in orders && orders[o.id] == o
    ensures forall id :: id in InsertId(ids, orders, o) <==> id == o.id || id in ids
    ensures Deref(InsertId(ids, orders, o), orders) == Insert(Deref(ids, orders), o)
  {
    if ids != [] {
      DerefCons(ids, orders);
      if Precedes(orders[ids[0]], o) {
        InsertIdDeref(ids[1..], orders, o);
        DerefCons(InsertId(ids, orders, o), orders);
      } else {
        DerefCons([o.id] + ids, orders);
        assert ([o.id] + ids)[1..] == ids;
      }
    } else {
      DerefCons([o.id], orders);
    }
  }

  lemma {:induction false} RemoveIdDeref(ids: seq<OrderId>, orders: map<OrderId, Order>, id: OrderId)
    requires forall i | i in ids :: i in orders && orders[i].id == i
    ensures forall i | i in RemoveId(ids, id) :: i in ids
    ensures Deref(RemoveId(ids, id), orders) == Remove(Deref(ids, orders), id)
  {
    if ids != [] {
      DerefCons(ids, orders);
      RemoveIdDeref(ids[1..], orders, id);
      if ids[0] != id {
        DerefCons(RemoveId(ids, id), orders);
      }
    }
  }

  /** Removing from a list without repetition removes exactly that id. */
  lemma {:induction false} RemoveIdElements(ids: seq<OrderId>, id: OrderId)
    requires forall i, j | 0 <= i < j < |ids| :: ids[i] != ids[j]
    ensures forall i :: i in RemoveId(ids, id) <==> i in ids && i != id
  {
    if ids != [] {
      assert forall i :: i in ids <==> i == ids[0] || i in ids[1..];
      forall i, j | 0 <= i < j < |ids[1..]| ensures ids[1..][i] != ids[1..][j] {
        assert ids[i + 1] != ids[j + 1];
      }
      RemoveIdElements(ids[1..], id);
      HeadNotInTail(ids);
    }
  }

  lemma HeadNotInTail(ids: seq<OrderId>)
    requires ids != [] && forall i, j | 0 <= i < j < |ids| :: ids[i] != ids[j]
    ensures ids[0] !in ids[1..]
  {
    forall j | 0 <= j < |ids[1..]| ensures ids[1..][j] != ids[0] {
      assert ids[0] != ids[j + 1];
    }
  }

  lemma NewestHead(ids: seq<OrderId>)
    requires Newest(ids) && ids != []
    ensures Newest(ids[1..]) && forall i | i in ids[1..] :: i < ids[0]
    ensures forall i :: i in ids <==> i == ids[0] || i in ids[1..]
  {
    assert ids == [ids[0]] + ids[1..];
    forall i | i in ids[1..] ensures i < ids[0] {
      var j :| 0 <= j < |ids[1..]| && ids[1..][j] == i;
      assert ids[0] > ids[j + 1];
    }
  }

  lemma NewestCons(id: OrderId, ids: seq<OrderId>)
    requires Newest(ids) && forall i | i in ids :: i < id
    ensures Newest([id] + ids)
  {
    var all := [id] + ids;
    forall i, j | 0 <= i < j < |all| ensures all[i] > all[j] {
      assert all[j] == ids[j - 1] && ids[j - 1] in ids;
    }
  }

  lemma {:induction false} InsertNewestOk(ids: seq<OrderId>, id: OrderId)
    requires Newest(ids) && id !in ids
    ensures Newest(InsertNewest(ids, id))
    ensures forall i :: i in InsertNewest(ids, id) <==> i == id || i in ids
  {
    if ids != [] {
      NewestHead(ids);
      InsertNewestOk(ids[1..], id);
      if ids[0] > id {
        NewestCons(ids[0], InsertNewest(ids[1..], id));
      } else {
        NewestCons(id, ids);
      }
    }
  }

  lemma {:induction false} RemoveNewestOk(ids: seq<OrderId>, id: OrderId)
    requires Newest(ids)
    ensures Newest(RemoveId(ids, id))
    ensures forall i :: i in RemoveId(ids, id) <==> i in ids && i != id
  {
    if ids != [] {
      NewestHead(ids);
      RemoveNewestOk(ids[1..], id);
      if ids[0] != id {
        NewestCons(ids[0], RemoveId(ids[1..], id));
      }
    }
  }

  lemma SortedIds(ids: seq<OrderId>, orders: map<OrderId, Order>)
    requires (forall id | id in ids :: id in orders && orders[id].id == id) && Sorted(Deref(ids, orders))
    ensures forall i, j | 0 <= i < j < |ids| :: ids[i] != ids[j]
  {
    DistinctIds(Deref(ids, orders));
    forall i, j | 0 <= i < j < |ids| ensures ids[i] != ids[j] {
      assert ids[i] in ids && ids[j] in ids;
      assert Deref(ids, orders)[i].id != Deref(ids, orders)[j].id;
    }
  }

  // ----- An order enters

  lemma EnterOther(ids: seq<OrderId>, orders: map<OrderId, Order>, side: Side, o: Order)
    requires SideHolds(ids, orders, side) && o.id !in orders
    ensures SideHolds(ids, orders[o.id := o], side) && Deref(ids, orders[o.id := o]) == Deref(ids, orders)
  {
    DerefSame(ids, orders, orders[o.id := o]);
  }

  lemma EnterSide(ids: seq<OrderId>, orders: map<OrderId, Order>, o: Order)
    requires SideHolds(ids, orders, o.side) && o.id !in orders && o.kind == LIMIT
    ensures SideHolds(ids, orders[o.id := o], o.side)
    ensures var ids' := InsertId(ids, orders[o.id := o], o);
      && SideHolds(ids', orders[o.id := o], o.side)
      && Deref(ids', orders[o.id := o]) == Insert(Deref(ids, orders), o)
      && (forall id :: id in ids' <==> id == o.id || id in ids)
  {
    hide Sorted;
    EnterOther(ids, orders, o.side, o);
    InsertIdDeref(ids, orders[o.id := o], o);
    DerefMembers(ids, orders, o.side);
    InsertSorted(Deref(ids, orders), o, o.side);
  }

  lemma DerefMembers(ids: seq<OrderId>, orders: map<OrderId, Order>, side: Side)
    requires SideHolds(ids, orders, side)
    ensures OneSide(Deref(ids, orders), side)
    ensures forall x | x in Deref(ids, orders) :: x.id in orders
  {
    forall x | x in Deref(ids, orders) ensures x.id in ids && orders[x.id] == x {
      var i :| 0 <= i < |ids| && Deref(ids, orders)[i] == x;
      assert ids[i] in ids;
    }
  }

  lemma EnterLists(users: map<UserId, seq<OrderId>>, orders: map<OrderId, Order>, o: Order)
    requires ListsHold(users, orders) && o.id !in orders
    ensures ListsHold(users[o.user := InsertNewest(if o.user in users then users[o.user] else [], o.id)],
      orders[o.id := o])
  {
    var list := if o.user in users then users[o.user] else [];
    InsertNewestOk(list, o.id);
  }

  // ----- An order leaves

  lemma LeaveOther(ids: seq<OrderId>, orders: map<OrderId, Order>, side: Side, id: OrderId)
    requires SideHolds(ids, orders, side) && id !in ids
    ensures SideHolds(ids, orders - {id}, side) && Deref(ids, orders - {id}) == Deref(ids, orders)
  {
    DerefSame(ids, orders, orders - {id});
  }

  lemma LeaveSide(ids: seq<OrderId>, orders: map<OrderId, Order>, side: Side, id: OrderId)
    requires SideHolds(ids, orders, side)
    ensures var ids' := RemoveId(ids, id);
      && SideHolds(ids', orders - {id}, side)
      && Deref(ids', orders - {id}) == Remove(Deref(ids, orders), id)
      && (forall i :: i in ids' <==> i in ids && i != id)
  {
    hide Sorted;
    SortedIds(ids, orders);
    RemoveIdDeref(ids, orders, id);
    RemoveIdElements(ids, id);
    RemoveElements(Deref(ids, orders), id);
    DerefSame(RemoveId(ids, id), orders, orders - {id});
  }

  lemma LeaveLists(users: map<UserId, seq<OrderId>>, orders: map<OrderId, Order>, o: Order)
    requires ListsHold(users, orders) && o.id in orders && orders[o.id] == o
    ensures o.user in users
    ensures ListsHold(users[o.user := RemoveId(users[o.user], o.id)], orders - {o.id})
  {
    RemoveNewestOk(users[o.user], o.id);
  }

  // ----- An order is changed in place

  predicate SamePlace(p: Order, o: Order) {
    p.id == o.id && p.kind == o.kind && p.side == o.side && p.user == o.user && p.price == o.price
  }

  lemma WriteSide(ids: seq<OrderId>, orders: map<OrderId, Order>, side: Side, o: Order)
    requires SideHolds(ids, orders, side) && o.id in orders && SamePlace(orders[o.id], o)
    ensures SideHolds(ids, orders[o.id := o], side)
    ensures o.side != side ==> Deref(ids, orders[o.id := o]) == Deref(ids, orders)
    ensures forall i | 0 <= i < |ids| && ids[i] == o.id :: Deref(ids, orders[o.id := o]) == Deref(ids, orders)[i := o]
  {
    SortedIds(ids, orders);
    var s, t := Deref(ids, orders), Deref(ids, orders[o.id := o]);
    forall i, j | 0 <= i < j < |t| ensures Precedes(t[i], t[j]) {
      assert Precedes(s[i], s[j]);
      assert ids[i] in ids && ids[j] in ids;
    }
    if o.side != side {
      DerefSame(ids, orders, orders[o.id := o]);
    }
  }

  lemma WriteLists(users: map<UserId, seq<OrderId>>, orders: map<OrderId, Order>, o: Order)
    requires ListsHold(users, orders) && o.id in orders && SamePlace(orders[o.id], o)
    ensures ListsHold(users, orders[o.id := o])
  {
  }

  lemma {:induction false} LookupDeref(ids: seq<OrderId>, orders: map<OrderId, Order>, id: OrderId)
    requires forall i | i in ids :: i in orders && orders[i].id == i
    ensures Lookup(Deref(ids, orders), id) == if id in ids then [orders[id]] else []
  {
    if ids != [] {
      DerefCons(ids, orders);
      LookupDeref(ids[1..], orders, id);
    }
  }

  class MarketT {
    const conf: Market
    var orders: map<OrderId, Order>
    var users: map<UserId, seq<OrderId>>
    var asks: seq<OrderId>
    var bids: seq<OrderId>

    /** The dictionary, the two sides and the lists of the users hold exactly the same live orders. */
    ghost predicate Valid()
      reads this
    {
      && SideHolds(asks, orders, ASK) && SideHolds(bids, orders, BID)
      && (forall id | id in orders :: id in asks || id in bids)
      && ListsHold(users, orders)
    }

    ghost function View(): Book
      requires Valid()
      reads this
    {
      Book(Deref(asks, orders), Deref(bids, orders))
    }

    constructor (conf: Market)
      ensures this.conf == conf && Valid() && View() == Book([], [])
    {
      this.conf := conf;
      orders, users, asks, bids := map[], map[], [], [];
    }

    lemma FindMatchesDictionary(id: OrderId)
      requires Valid()
      ensures id in orders <==> FindOrder(View(), id) != []
      ensures id in orders ==> FindOrder(View(), id) == [orders[id]] && orders[id].id == id
    {
      LookupDeref(asks, orders, id);
      LookupDeref(bids, orders, id);
    }

    /** The dictionary and list part of `order_put`. */
    method Enter(o: Order) returns (ok: bool)
      requires Valid() && o.kind == LIMIT
      modifies this
      ensures Valid() && ok == (o.id !in old(orders))
      ensures ok ==> View() == WithSide(old(View()), o.side, Insert(SideOf(old(View()), o.side), o))
      ensures ok ==> orders == old(orders)[o.id := o]
      ensures !ok ==> View() == old(View()) && orders == old(orders)
    {
      hide ListsHold, Sorted;
      if o.id in orders {
        return false;
      }
      EnterLists(users, orders, o);
      EnterOther(asks, orders, ASK, o);
      EnterOther(bids, orders, BID, o);
      if o.side == ASK { EnterSide(asks, orders, o); } else { EnterSide(bids, orders, o); }
      orders := orders[o.id := o];
      if o.user in users {
        users := users[o.user := InsertNewest(users[o.user], o.id)];
      } else {
        users := users[o.user := [o.id]];
      }
      if o.side == ASK {
        asks := InsertId(asks, orders, o);
      } else {
        bids := InsertId(bids, orders, o);
      }
      ok := true;
    }

    /** The dictionary and list part of `order_finish`. */
    method Leave(o: Order)
      requires Valid() && o.id in orders && orders[o.id] == o
      modifies this
      ensures Valid() && View() == WithSide(old(View()), o.side, Remove(SideOf(old(View()), o.side), o.id))
      ensures orders == old(orders) - {o.id}
      ensures o.side == ASK ==> asks == RemoveId(old(asks), o.id)
      ensures o.side == BID ==> bids == RemoveId(old(bids), o.id)
    {
      hide ListsHold, Sorted, Newest;
      LeaveLists(users, orders, o);
      if o.side == ASK {
        LeaveSide(asks, orders, ASK, o.id);
        LeaveOther(bids, orders, BID, o.id);
        asks := RemoveId(asks, o.id);
      } else {
        LeaveSide(bids, orders, BID, o.id);
        LeaveOther(asks, orders, ASK, o.id);
        bids := RemoveId(bids, o.id);
      }
      users := users[o.user := RemoveId(users[o.user], o.id)];
      orders := orders - {o.id};
    }

    /** A trade changes the quantities of an order in place; what the comparator looks at stays. */
    method Write(o: Order)
      requires Valid() && o.id in orders && SamePlace(orders[o.id], o)
      modifies this`orders
      ensures Valid() && orders == old(orders)[o.id := o]
      ensures o.side == BID ==> View().asks == old(View()).asks
      ensures o.side == ASK ==> View().bids == old(View()).bids
      ensures forall i | 0 <= i < |asks| && asks[i] == o.id :: View().asks == old(View()).asks[i := o]
      ensures forall i | 0 <= i < |bids| && bids[i] == o.id :: View().bids == old(View()).bids[i := o]
    {
      hide SideHolds, ListsHold, Sorted;
      WriteSide(asks, orders, ASK, o);
      WriteSide(bids, orders, BID, o);
      WriteLists(users, orders, o);
      orders := orders[o.id := o];
    }
  }
}
