/** The table of pending requests (`network/nw_state.c`). Timers are not modelled: a timeout is a removal. */
module StateTable {
  import opened Wrappers
  import opened Chains

  newtype Uint32 = x: int | 0 <= x <= 0xFFFF_FFFF

  const UINT32_MAX: nat := 0xFFFF_FFFF
  const INIT_SIZE: nat := 64

  /** An id is its own hash value. */
  function Hash(): Uint32 -> nat {
    (id: Uint32) => id as nat
  }

  /** Addition of one with wrap-around. */
  function Plus1(id: Uint32): Uint32 {
    if id as nat == UINT32_MAX then 0 else id + 1
  }

  /** How many tries lead from `id` to `free`, zero left out. */
  function Distance(id: Uint32, free: Uint32): nat
    requires free != 0
  {
    if id < free then free as nat - id as nat else UINT32_MAX - id as nat + free as nat
  }

  ghost predicate InUse<D>(all: map<Uint32, D>, id: nat) {
    1 <= id <= UINT32_MAX && id as Uint32 in all
  }

  ghost function UsedUpTo<D>(all: map<Uint32, D>, n: nat): set<Uint32>
    requires n <= UINT32_MAX
  {
    set id: Uint32 | id in all && 1 <= id as nat <= n
  }

  lemma {:induction false} UsedUpToSize<D>(all: map<Uint32, D>, n: nat)
    requires n <= UINT32_MAX && forall id: nat :: 1 <= id <= n ==> InUse(all, id)
    ensures |UsedUpTo(all, n)| == n
  {
    if n > 0 {
      UsedUpToSize(all, n - 1);
      assert InUse(all, n);
      assert UsedUpTo(all, n) == UsedUpTo(all, n - 1) + {n as Uint32};
    } else {
      assert UsedUpTo(all, 0) == {};
    }
  }

  /** With fewer entries than ids, an id is free. */
  lemma SomeFree<D>(all: map<Uint32, D>) returns (free: Uint32)
    requires Count(all) < UINT32_MAX
    ensures free != 0 && free !in all
  {
    if forall id: nat :: 1 <= id <= UINT32_MAX ==> InUse(all, id) {
      UsedUpToSize(all, UINT32_MAX);
      SetSize(UsedUpTo(all, UINT32_MAX), all.Keys);
      assert false;
    }
    var id: nat :| 1 <= id <= UINT32_MAX && !InUse(all, id);
    free := id as Uint32;
  }

  class State<D(0)> {
    var table: array<Chain<Uint32, D>>
    var used: nat
    var idStart: Uint32
    /** The pending requests. */
    ghost var all: map<Uint32, Entry<Uint32, D>>

    ghost predicate Valid()
      reads this, table
    {
      && PowerOfTwo(table.Length) && Holds(table[..], SlotIn(Hash(), table.Length), all)
      && used == Count(all) && used <= UINT32_MAX
      && 0 !in all
    }

    /** The pending requests and their data. */
    ghost function View(): map<Uint32, D>
      reads this
    {
      map id | id in all :: all[id].val
    }

    /** `nw_state_create` */
    constructor ()
      ensures Valid() && fresh(table) && View() == map[] && idStart == 0
    {
      var slots: array<Chain<Uint32, D>> := NewTable(INIT_SIZE, Hash());
      table := slots;
      used, idStart, all := 0, 0, map[];
    }

    /** `nw_state_get` */
    method Get(id: Uint32) returns (r: Option<D>)
      requires Valid()
      ensures r == if id in View() then Some(View()[id]) else None
    {
      hide Holds, Count;
      var c := table[Masked(id as nat, table.Length)];
      var j := Search(c, id);
      SearchHolds(table[..], SlotIn(Hash(), table.Length), all, id, j);
      r := if j < |c| then Some(c[j].val) else None;
    }

    /** `get_available_id`: ends, with an id that is not zero and not in use. */
    method GetAvailableId() returns (id: Uint32)
      requires Valid() && used < UINT32_MAX
      modifies this`idStart
      ensures Valid() && id == idStart && id != 0 && id !in View()
    {
      hide Holds, Count;
      ghost var free := SomeFree(all);
      while true
        invariant Valid()
        decreases Distance(idStart, free)
      {
        idStart := Plus1(idStart);
        if idStart == 0 {
          idStart := Plus1(idStart);
        }
        var entry := Get(idStart);
        if entry == None { break; }
      }
      id := idStart;
    }

    /** `expand_if_needed` */
    method ExpandIfNeeded()
      requires Valid()
      modifies this`table
      ensures Valid() && (table == old(table) || fresh(table))
    {
      hide Valid, Holds, Moved, Masked, ChainOf, SlotIn, Count, Hash, PowerOfTwo;
      Facts();
      if used < table.Length * 4 { return; }
      var n := table.Length * 4;
      FourTimes(table.Length);
      var bigger: array<Chain<Uint32, D>> := NewTable(n, Hash());
      ghost var moved: map<Uint32, Entry<Uint32, D>> := map[];
      ghost var from := SlotIn(Hash(), table.Length);
      MovedNone(all, from, moved);
      var i: nat, left: nat := 0, used;
      while i < table.Length
        modifies bigger
        invariant i <= table.Length && Holds(bigger[..], SlotIn(Hash(), n), moved)
        invariant Moved(all, from, moved, i) && left >= 0 && left + Count(moved) == Count(all)
      {
        ChainPart(i);
        left, moved := MoveChain(table[i], bigger, Hash(), left, all, from, moved, i);
        i := i + 1;
      }
      AllMoved(moved);
      UseTable(bigger);
    }

    lemma Facts()
      requires Valid()
      ensures PowerOfTwo(table.Length) && used == Count(all)
    {
    }

    lemma ChainPart(i: nat)
      requires Valid() && i < table.Length
      ensures ChainOf(table[i], all, SlotIn(Hash(), table.Length), i)
    {
      HoldsChain(table[..], SlotIn(Hash(), table.Length), all, i);
    }

    lemma AllMoved(moved: map<Uint32, Entry<Uint32, D>>)
      requires Valid() && Moved(all, SlotIn(Hash(), table.Length), moved, table.Length)
      ensures moved == all
    {
      MovedAll(table[..], all, SlotIn(Hash(), table.Length), moved, table.Length);
    }

    method UseTable(bigger: array<Chain<Uint32, D>>)
      requires Valid() && PowerOfTwo(bigger.Length) && Holds(bigger[..], SlotIn(Hash(), bigger.Length), all)
      modifies this`table
      ensures Valid() && table == bigger
    {
      table := bigger;
    }

    /** `nw_state_add`: the id asked for, or a new one for zero; 0 stands for a refusal. */
    method Add(id: Uint32, data: D) returns (r: Uint32)
      requires Valid()
      modifies this, table
      ensures Valid() && (table == old(table) || fresh(table))
      ensures r == 0 <==> (id != 0 && id in old(View())) || old(used) == UINT32_MAX
      ensures r != 0 ==>
        r !in old(View()) && (id != 0 ==> r == id) && View() == old(View())[r := data] && used == old(used) + 1
      ensures r == 0 ==> View() == old(View()) && used == old(used)
    {
      hide Holds, Count;
      if id != 0 {
        var entry := Get(id);
        if entry != None { return 0; }
      }
      if used == UINT32_MAX { return 0; }
      r := id;
      if id == 0 {
        r := GetAvailableId();
      }
      ExpandIfNeeded();
      Link(r, data);
    }

    method Link(id: Uint32, data: D)
      requires Valid() && id != 0 && id !in all && used < UINT32_MAX
      modifies this`used, this`all, table
      ensures Valid() && View() == old(View())[id := data] && used == old(used) + 1
    {
      hide Holds, SlotIn, Count;
      LinkFirst(table, Hash(), Entry(id, data, 0), all);
      all := all[id := Entry(id, data, 0)];
      used := used + 1;
    }

    /** `nw_state_del`, and the removal at a timeout. */
    method Del(id: Uint32) returns (found: bool)
      requires Valid()
      modifies this`used, this`all, table
      ensures Valid() && found == (id in old(View()))
      ensures View() == old(View()) - {id} && used == (if found then old(used) - 1 else old(used))
    {
      hide Holds, Count;
      var entry := Get(id);
      found := entry != None;
      if found {
        StateRemove(id);
      }
    }

    /** `state_remove` */
    method StateRemove(id: Uint32)
      requires Valid() && id in all
      modifies this`used, this`all, table
      ensures Valid() && View() == old(View()) - {id} && used == old(used) - 1
    {
      hide Holds, Count;
      var index := Masked(id as nat, table.Length);
      var j := Search(table[index], id);
      SearchHolds(table[..], SlotIn(Hash(), table.Length), all, id, j);
      UnlinkPlace(table, Hash(), index, j, all);
      all := all - {id};
      used := used - 1;
    }
  }
}
