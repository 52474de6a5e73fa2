/** The chained hash table with lazy clearing (`utils/ut_dict.c`). */
module DictStore {
  import opened Wrappers
  import opened Chains

  /** `dict_next_power`: the least power of two from four on that is large enough. */
  method NextPower(size: nat) returns (r: nat)
    ensures PowerOfTwo(r) && r >= size && r >= 4
    ensures forall p: nat | PowerOfTwo(p) && p >= size && p >= 4 :: r <= p
  {
    r := 4;
    assert PowerOfTwo(2);
    while r < size
      invariant PowerOfTwo(r) && r >= 4
      invariant forall p: nat | PowerOfTwo(p) && p >= size && p >= 4 :: r <= p
    {
      forall p: nat | PowerOfTwo(p) && p >= size && p >= 4 ensures r * 2 <= p {
        PowersApart(r, p);
      }
      r := r * 2;
    }
  }

  ghost function LiveOf<K, V>(all: map<K, Entry<K, V>>, idClear: nat): map<K, V> {
    map k | k in all && all[k].stamp >= idClear :: all[k].val
  }

  lemma LiveAfter<K, V>(all: map<K, Entry<K, V>>, idClear: nat, e: Entry<K, V>)
    ensures e.stamp >= idClear ==> LiveOf(all[e.key := e], idClear) == LiveOf(all, idClear)[e.key := e.val]
    ensures LiveOf(all - {e.key}, idClear) == LiveOf(all, idClear) - {e.key}
    ensures e.key in all && all[e.key].stamp < idClear ==> LiveOf(all - {e.key}, idClear) == LiveOf(all, idClear)
  {
  }

  class Dict<K(==), V(0)> {
    const hash: K -> nat
    var table: array<Chain<K, V>>
    var used: nat
    var idStart: nat
    var idClear: nat
    /** Every entry that is in the table, cleared or not. */
    ghost var all: map<K, Entry<K, V>>

    ghost predicate Valid()
      reads this, table
    {
      && PowerOfTwo(table.Length) && Holds(table[..], SlotIn(hash, table.Length), all)
      && used == |all| && idClear <= idStart
      && (forall k :: k in all ==> all[k].stamp < idStart)
    }

    /** The dictionary: what was added after the last clearing mark. */
    ghost function Live(): map<K, V>
      reads this
    {
      LiveOf(all, idClear)
    }

    function Slot(key: K): (i: nat)
      requires PowerOfTwo(table.Length)
      reads this
      ensures i == SlotIn(hash, table.Length)(key) < table.Length
    {
      Masked(hash(key), table.Length)
    }

    /** `dict_create` */
    constructor (hash: K -> nat, initSize: nat)
      ensures Valid() && fresh(table) && Live() == map[] && this.hash == hash
    {
      this.hash := hash;
      var size := NextPower(initSize);
      var slots: array<Chain<K, V>> := NewTable(size, hash);
      table := slots;
      used, idStart, idClear, all := 0, 0, 0, map[];
    }

    /** The entry at place `i` of a chain is unlinked. */
    method Remove(index: nat, i: nat)
      requires Valid() && index < table.Length && i < |table[index]|
      modifies this`used, this`all, table
      ensures Valid() && table[index] == old(table[index][..i] + table[index][i + 1..])
      ensures all == old(all) - {old(table[index][i]).key}
    {
      hide Holds, SlotIn;
      var key := table[index][i].key;
      UnlinkPlace(table, hash, index, i, all);
      all := all - {key};
      used := used - 1;
    }

    lemma InChain(index: nat, i: nat)
      requires Valid() && index < table.Length && i < |table[index]|
      ensures var e := table[index][i];
        e.key in all && all[e.key] == e && Slot(e.key) == index && Distinct(table[index])
    {
      assert table[index][i] in table[..][index];
    }

    lemma ChainLive(index: nat)
      requires Valid() && index < table.Length && forall e :: e in table[index] ==> e.stamp >= idClear
      ensures forall k :: k in all && Slot(k) == index ==> all[k].stamp >= idClear
    {
      forall k | k in all && Slot(k) == index ensures all[k].stamp >= idClear {
        assert all[k] in table[..][index];
      }
    }

    /** `check_clear`: the entries of a chain from before the mark go. */
    method CheckClear(index: nat)
      requires Valid() && index < table.Length
      modifies this`used, this`all, table
      ensures Valid() && Live() == old(Live())
      ensures forall k :: k in all && Slot(k) == index ==> all[k].stamp >= idClear
      ensures forall k :: k in all ==> k in old(all) && all[k] == old(all)[k]
    {
      hide Valid;
      var i := 0;
      while i < |table[index]|
        invariant Valid() && i <= |table[index]| && Live() == old(Live())
        invariant forall e :: e in table[index][..i] ==> e.stamp >= idClear
        invariant forall k :: k in all ==> k in old(all) && all[k] == old(all)[k]
        decreases |table[index]| - i
      {
        var entry := table[index][i];
        InChain(index, i);
        if entry.stamp < idClear {
          ghost var c := table[index];
          Remove(index, i);
          assert table[index][..i] == c[..i];
        } else {
          assert table[index][..i + 1] == table[index][..i] + [entry];
          i := i + 1;
        }
      }
      assert table[index][..i] == table[index];
      ChainLive(index);
    }

    lemma Found(key: K, j: nat)
      requires Valid() && j <= |table[Slot(key)]| && (forall e :: e in table[Slot(key)][..j] ==> e.key != key)
      requires j < |table[Slot(key)]| ==> table[Slot(key)][j].key == key
      ensures key in all <==> j < |table[Slot(key)]|
      ensures key in all ==> all[key] == table[Slot(key)][j]
    {
      SearchHolds(table[..], SlotIn(hash, table.Length), all, key, j);
    }

    /** `dict_find` */
    method Find(key: K) returns (r: Option<V>)
      requires Valid()
      modifies this`used, this`all, table
      ensures Valid() && Live() == old(Live()) && table.Length == old(table.Length)
      ensures r == if key in Live() then Some(Live()[key]) else None
      ensures key in all <==> key in Live()
    {
      hide Valid;
      HasSlots();
      var index := Slot(key);
      if idClear > 0 {
        CheckClear(index);
      }
      var j := Search(table[index], key);
      Found(key, j);
      r := if j < |table[index]| then Some(table[index][j].val) else None;
    }

    lemma HasSlots()
      requires Valid()
      ensures PowerOfTwo(table.Length) && used == Count(all) && forall k :: k in all ==> all[k].key == k
    {
    }

    /** `dict_expand`: every entry moves to its chain in a larger table; the count says when all have moved. */
    method Expand(size: nat)
      requires Valid()
      modifies this`table
      ensures Valid() && fresh(table) && table.Length >= size
    {
      hide Valid, Holds, Moved, Masked, ChainOf, SlotIn, Count;
      HasSlots();
      var n := NextPower(size);
      var bigger: array<Chain<K, V>> := NewTable(n, hash);
      ghost var moved: map<K, Entry<K, V>> := map[];
      ghost var from := SlotIn(hash, table.Length);
      var left: nat := used;
      var i := 0;
      MovedNone(all, from, moved);
      while i < table.Length && left > 0
        modifies bigger
        invariant i <= table.Length && Holds(bigger[..], SlotIn(hash, n), moved)
        invariant Moved(all, from, moved, i) && left >= 0 && left + Count(moved) == Count(all)
        decreases table.Length - i
      {
        ChainPart(i);
        left, moved := MoveChain(table[i], bigger, hash, left, all, from, moved, i);
        i := i + 1;
      }
      AllMoved(moved, i);
      UseTable(bigger);
    }

    lemma AllMoved(moved: map<K, Entry<K, V>>, i: nat)
      requires Valid() && (i < table.Length ==> Count(moved) == Count(all)) && i <= table.Length
        && Moved(all, SlotIn(hash, table.Length), moved, i)
      ensures moved == all
    {
      MovedAll(table[..], all, SlotIn(hash, table.Length), moved, i);
    }

    /** The new table takes the place of the old one. */
    method UseTable(bigger: array<Chain<K, V>>)
      requires Valid() && PowerOfTwo(bigger.Length) && Holds(bigger[..], SlotIn(hash, bigger.Length), all)
      modifies this`table
      ensures Valid() && table == bigger
    {
      table := bigger;
    }

    /** `dict_add`: a key that is there already is left alone. */
    method Add(key: K, val: V) returns (ok: bool)
      requires Valid()
      modifies this, table
      ensures Valid() && (table == old(table) || fresh(table))
      ensures ok == (key !in old(Live())) && Live() == if ok then old(Live())[key := val] else old(Live())
    {
      hide Holds, SlotIn;
      var found := Find(key);
      if found != None { return false; }
      if used >= table.Length * 4 {
        Expand(table.Length * 4);
      }
      Link(key, val);
      ok := true;
    }

    method Link(key: K, val: V)
      requires Valid() && key !in all
      modifies this`idStart, this`used, this`all, table
      ensures Valid() && Live() == old(Live())[key := val]
    {
      hide Holds, SlotIn, LiveOf;
      var entry := Entry(key, val, idStart);
      LiveAfter(all, idClear, entry);
      LinkFirst(table, hash, entry, all);
      idStart := idStart + 1;
      all := all[key := entry];
      used := used + 1;
    }

    /** `dict_replace`: whether the key was new. */
    method Replace(key: K, val: V) returns (added: bool)
      requires Valid()
      modifies this, table
      ensures Valid() && (table == old(table) || fresh(table))
      ensures added == (key !in old(Live())) && Live() == old(Live())[key := val]
    {
      hide Holds, SlotIn;
      var found := Find(key);
      if found == None {
        added := Add(key, val);
      } else {
        HasSlots();
        var index := Slot(key);
        var j := Search(table[index], key);
        Found(key, j);
        Write(index, j, val);
        added := false;
      }
    }

    /** The value of an entry is changed in place. */
    method Write(index: nat, j: nat, val: V)
      requires Valid() && index < table.Length && j < |table[index]| && table[index][j].key in Live()
      modifies this`all, table
      ensures Valid() && Live() == old(Live())[old(table[index][j]).key := val]
    {
      hide Holds, SlotIn;
      var c := table[index];
      var entry := c[j].(val := val);
      LiveAfter(all, idClear, entry);
      InChain(index, j);
      ghost var before := table[..];
      WriteHolds(table[..], SlotIn(hash, table.Length), all, index, j, entry);
      SizeAfter(all, entry.key, entry);
      table[index] := c[j := entry];
      assert table[..] == before[index := c[j := entry]];
      all := all[entry.key := entry];
    }

    /** `dict_delete`: whether there was an entry to delete, which may be one from before the mark. */
    method Delete(key: K) returns (found: bool)
      requires Valid()
      modifies this`used, this`all, table
      ensures Valid() && all == old(all) - {key} && Live() == old(Live()) - {key}
      ensures found == (key in old(all))
    {
      hide Valid, Holds, SlotIn, LiveOf;
      HasSlots();
      var index := Slot(key);
      var j := Search(table[index], key);
      Found(key, j);
      found := j < |table[index]|;
      if found {
        LiveAfter(all, idClear, table[index][j]);
        Remove(index, j);
      } else {
        NothingToDelete(key);
      }
    }

    lemma NothingToDelete(key: K)
      requires key !in all
      ensures all - {key} == all && Live() - {key} == Live()
    {
    }

    /** `dict_mark_clear` */
    method MarkClear()
      requires Valid()
      modifies this`idStart, this`idClear
      ensures Valid() && all == old(all) && Live() == map[]
    {
      idClear := idStart;
      idStart := idStart + 1;
    }

    lemma ChainPart(i: nat)
      requires Valid() && i < table.Length
      ensures ChainOf(table[i], all, SlotIn(hash, table.Length), i)
    {
      HoldsChain(table[..], SlotIn(hash, table.Length), all, i);
    }
  }

  // ----- Iteration

  /** What is still to come: the rest of the chain under way and the chains after it; all else has been seen. */
  ghost predicate Ahead<K, V>(all: map<K, Entry<K, V>>, slot: K -> nat, index: int, rest: Chain<K, V>, seen: set<K>) {
    && Distinct(rest) && (forall k :: k in all ==> all[k].key == k)
    && (forall e :: e in rest ==> e.key in all && all[e.key] == e && slot(e.key) == index && e.key !in seen)
    && (forall k :: k in all && k !in seen ==> slot(k) > index || (slot(k) == index && all[k] in rest))
    && (forall k :: k in all && slot(k) > index ==> k !in seen)
  }

  lemma AheadNextSlot<K, V>(table: seq<Chain<K, V>>, all: map<K, Entry<K, V>>, slot: K -> nat, index: int, seen: set<K>)
    requires Holds(table, slot, all) && Ahead(all, slot, index, [], seen) && -1 <= index < |table| - 1
    ensures Ahead(all, slot, index + 1, table[index + 1], seen)
  {
  }

  lemma AheadEnd<K, V>(table: seq<Chain<K, V>>, all: map<K, Entry<K, V>>, slot: K -> nat, index: int, seen: set<K>)
    requires Holds(table, slot, all) && Ahead(all, slot, index, [], seen) && index + 1 >= |table|
    ensures forall k :: k in all ==> k in seen
  {
  }

  lemma AheadTake<K, V>(all: map<K, Entry<K, V>>, slot: K -> nat, index: int, rest: Chain<K, V>, seen: set<K>)
    requires Ahead(all, slot, index, rest, seen) && rest != []
    ensures rest[0].key in all && all[rest[0].key] == rest[0] && rest[0].key !in seen
    ensures Ahead(all, slot, index, rest[1..], seen + {rest[0].key})
  {
    assert rest[0] in rest;
    assert rest == [rest[0]] + rest[1..];
    forall e | e in rest[1..] ensures e in rest && e.key != rest[0].key {
      var m :| 0 <= m < |rest[1..]| && rest[1..][m] == e;
      assert rest[m + 1] == e;
    }
    forall k | k in all && k !in seen + {rest[0].key}
      ensures slot(k) > index || (slot(k) == index && all[k] in rest[1..]) {
      assert slot(k) == index ==> all[k] in rest && all[k] != rest[0];
    }
  }

  lemma AheadWithout<K, V>(all: map<K, Entry<K, V>>, slot: K -> nat, index: int, rest: Chain<K, V>, seen: set<K>,
          key: K)
    requires Ahead(all, slot, index, rest, seen) && key in seen
    ensures Ahead(all - {key}, slot, index, rest, seen)
  {
  }

  /** `dict_iterator`: the slot, whether there is an entry under way, and the chain that its `next` pointer led to. */
  class DictIterator<K(==), V(0)> {
    var index: int
    var entry: Option<Entry<K, V>>
    var rest: Chain<K, V>

    /** `dict_get_iterator` */
    constructor ()
      ensures index == -1 && entry == None && rest == []
    {
      index, entry, rest := -1, None, [];
    }

    ghost predicate Ready(dt: Dict<K, V>, seen: set<K>)
      requires PowerOfTwo(dt.table.Length)
      reads this, dt
    {
      -1 <= index && (entry == None ==> rest == [])
        && Ahead(dt.all, SlotIn(dt.hash, dt.table.Length), index, rest, seen)
    }

    /** `dict_next`: an entry that has not been seen, or none when all have. */
    method Next(dt: Dict<K, V>, ghost seen: set<K>) returns (r: Option<Entry<K, V>>)
      requires dt.Valid() && Ready(dt, seen)
      modifies this
      ensures r == None ==> forall k :: k in dt.all ==> k in seen
      ensures r != None ==>
        && r.value.key in dt.all && dt.all[r.value.key] == r.value && r.value.key !in seen
        && Ready(dt, seen + {r.value.key})
    {
      hide Holds, Ahead, SlotIn;
      while true
        invariant Ready(dt, seen)
        decreases dt.table.Length - index, entry != None
      {
        var chain := rest;
        if entry == None {
          if index + 1 >= dt.table.Length {
            AheadEnd(dt.table[..], dt.all, SlotIn(dt.hash, dt.table.Length), index, seen);
            index := index + 1;
            return None;
          }
          AheadNextSlot(dt.table[..], dt.all, SlotIn(dt.hash, dt.table.Length), index, seen);
          index := index + 1;
          chain := dt.table[index];
        }
        if |chain| > 0 {
          AheadTake(dt.all, SlotIn(dt.hash, dt.table.Length), index, chain, seen);
          entry, rest := Some(chain[0]), chain[1..];
          return entry;
        }
        entry, rest := None, [];
      }
    }
  }

  /** A walk over the table in which some of the entries are deleted as they come: each entry that was there comes
    exactly once. */
  method Walk<K, V(0)>(dt: Dict<K, V>, deletes: K -> bool) returns (visited: seq<Entry<K, V>>)
    requires dt.Valid()
    modifies dt`used, dt`all, dt.table
    ensures dt.Valid() && forall k :: k in dt.all <==> k in old(dt.all) && !deletes(k)
    ensures Distinct(visited) && forall e :: e in visited <==> e.key in old(dt.all) && old(dt.all)[e.key] == e
  {
    hide Holds, Ahead, SlotIn, dt.Valid;
    visited := [];
    ghost var seen: set<K> := {};
    dt.HasSlots();
    var iter := new DictIterator<K, V>();
    AheadStart(dt.all, SlotIn(dt.hash, dt.table.Length));
    while true
      invariant dt.Valid() && dt.table == old(dt.table) && iter.Ready(dt, seen)
      invariant forall k :: k in dt.all <==> k in old(dt.all) && !(k in seen && deletes(k))
      invariant forall k :: k in dt.all ==> dt.all[k] == old(dt.all)[k]
      invariant Distinct(visited) && forall e ::
        e in visited <==> e.key in seen && e.key in old(dt.all) && old(dt.all)[e.key] == e
      decreases old(dt.all).Keys - seen
    {
      var next := iter.Next(dt, seen);
      if next == None { break; }
      var entry := next.value;
      DistinctLast(visited, entry);
      visited := visited + [entry];
      seen := seen + {entry.key};
      if deletes(entry.key) {
        AheadWithout(dt.all, SlotIn(dt.hash, dt.table.Length), iter.index, iter.rest, seen, entry.key);
        var _ := dt.Delete(entry.key);
      }
    }
  }

  lemma AheadStart<K, V>(all: map<K, Entry<K, V>>, slot: K -> nat)
    requires forall k :: k in all ==> all[k].key == k
    ensures Ahead(all, slot, -1, [], {})
  {
  }

  lemma DistinctLast<K, V>(c: Chain<K, V>, e: Entry<K, V>)
    requires Distinct(c) && forall x :: x in c ==> x.key != e.key
    ensures Distinct(c + [e])
  {
    var t := c + [e];
    forall i, j | 0 <= i < j < |t| ensures t[i].key != t[j].key {
      assert c[i] in c;
    }
  }

  /** `dict_clear`: deleting each entry as it comes empties the table. */
  method Clear<K, V(0)>(dt: Dict<K, V>)
    requires dt.Valid()
    modifies dt`used, dt`all, dt.table
    ensures dt.Valid() && dt.all == map[] && dt.used == 0
  {
    var visited := Walk(dt, _ => true);
    assert dt.all == map[];
  }
}
