/** Tables of chains, as the two hash tables have them: a chain is the list of entries that an array slot points to. */
module Chains {

  /** An entry; `stamp` tells when it was added, where that matters. */
  datatype Entry<K, V> = Entry(key: K, val: V, stamp: nat)

  type Chain<K, V> = seq<Entry<K, V>>

  ghost predicate Distinct<K, V>(c: Chain<K, V>) {
    forall i, j :: 0 <= i < j < |c| ==> c[i].key != c[j].key
  }

  function Unlink<K(==), V>(c: Chain<K, V>, key: K): Chain<K, V> {
    if c == [] then [] else if c[0].key == key then c[1..] else [c[0]] + Unlink(c[1..], key)
  }

  lemma {:induction false} UnlinkIs<K, V>(c: Chain<K, V>, key: K)
    requires Distinct(c)
    ensures Distinct(Unlink(c, key))
    ensures forall e :: e in Unlink(c, key) ==> e in c && e.key != key
    ensures forall e :: e in c && e.key != key ==> e in Unlink(c, key)
  {
    if c != [] {
      assert c == [c[0]] + c[1..];
      UnlinkIs(c[1..], key);
      if c[0].key != key {
        forall x | x in Unlink(c[1..], key) ensures x.key != c[0].key {
          var j :| 0 <= j < |c[1..]| && c[1..][j] == x;
          assert c[j + 1] == x;
        }
        DistinctCons(c[0], Unlink(c[1..], key));
      }
    }
  }

  lemma DistinctCons<K, V>(e: Entry<K, V>, c: Chain<K, V>)
    requires Distinct(c) && forall x :: x in c ==> x.key != e.key
    ensures Distinct([e] + c) && forall x :: x in [e] + c <==> x == e || x in c
  {
    var t := [e] + c;
    forall i, j | 0 <= i < j < |t| ensures t[i].key != t[j].key {
      assert t[j] == c[j - 1] && c[j - 1] in c;
    }
  }

  /** The table holds exactly the entries of `all`, each once, in the slot of its key. */
  ghost predicate Holds<K, V>(table: seq<Chain<K, V>>, slot: K -> nat, all: map<K, Entry<K, V>>) {
    && (forall i :: 0 <= i < |table| ==> Distinct(table[i]))
    && (forall i, e :: 0 <= i < |table| && e in table[i] ==> slot(e.key) == i && e.key in all && all[e.key] == e)
    && (forall k :: k in all ==> all[k].key == k && slot(k) < |table| && all[k] in table[slot(k)])
  }

  /** A chain is replaced; the entries of the other chains stay. */
  lemma ChainHolds<K, V>(table: seq<Chain<K, V>>, slot: K -> nat, all: map<K, Entry<K, V>>, i: nat, c: Chain<K, V>,
          all': map<K, Entry<K, V>>)
    requires Holds(table, slot, all) && i < |table| && Distinct(c)
    requires forall k :: slot(k) != i ==> (k in all' <==> k in all) && (k in all' ==> all'[k] == all[k])
    requires forall k :: k in all' && slot(k) == i ==> all'[k].key == k && all'[k] in c
    requires forall e :: e in c ==> slot(e.key) == i && e.key in all' && all'[e.key] == e
    ensures Holds(table[i := c], slot, all')
  {
  }

  /** An entry goes to the front of its chain. */
  lemma LinkHolds<K, V>(table: seq<Chain<K, V>>, slot: K -> nat, all: map<K, Entry<K, V>>, e: Entry<K, V>)
    requires Holds(table, slot, all) && slot(e.key) < |table| && e.key !in all
    ensures Holds(table[slot(e.key) := [e] + table[slot(e.key)]], slot, all[e.key := e])
  {
    var i := slot(e.key);
    DistinctCons(e, table[i]);
    ChainHolds(table, slot, all, i, [e] + table[i], all[e.key := e]);
  }

  lemma UnlinkHolds<K, V>(table: seq<Chain<K, V>>, slot: K -> nat, all: map<K, Entry<K, V>>, key: K)
    requires Holds(table, slot, all) && slot(key) < |table|
    ensures Holds(table[slot(key) := Unlink(table[slot(key)], key)], slot, all - {key})
  {
    var i := slot(key);
    UnlinkIs(table[i], key);
    forall e | e in Unlink(table[i], key)
      ensures slot(e.key) == i && e.key in all - {key} && (all - {key})[e.key] == e {
      assert e in table[i];
    }
    ChainHolds(table, slot, all, i, Unlink(table[i], key), all - {key});
  }

  /** The number of keys. */
  lemma SizeAfter<K, V>(all: map<K, V>, key: K, val: V)
    ensures |all - {key}| == if key in all then |all| - 1 else |all|
    ensures |all[key := val]| == if key in all then |all| else |all| + 1
  {
    if key in all {
      assert all == (all - {key})[key := all[key]];
      assert all[key := val] == (all - {key})[key := val];
    } else {
      assert all - {key} == all;
    }
  }

  lemma {:induction false} UnlinkAt<K, V>(c: Chain<K, V>, i: nat)
    requires Distinct(c) && i < |c|
    ensures Unlink(c, c[i].key) == c[..i] + c[i + 1..]
  {
    if i > 0 {
      var t := c[1..];
      assert t[i - 1] == c[i] && c[0].key != c[i].key && Distinct(t);
      hide Distinct;
      UnlinkAt(t, i - 1);
      Rejoin(c, i);
    } else {
      assert c[..0] == [];
    }
  }

  lemma Rejoin<T>(c: seq<T>, i: nat)
    requires 0 < i < |c|
    ensures [c[0]] + (c[1..][..i - 1] + c[1..][i..]) == c[..i] + c[i + 1..]
  {
  }

  // ----- Masks

  predicate PowerOfTwo(n: nat): (b: bool)
    ensures b ==> n > 0
  {
    n == 1 || (n > 1 && n % 2 == 0 && PowerOfTwo(n / 2))
  }

  lemma FourTimes(n: nat)
    requires PowerOfTwo(n)
    ensures PowerOfTwo(n * 4)
  {
    assert n * 4 / 2 == n * 2 && n * 2 / 2 == n;
  }

  /** The bits that two numbers share. */
  function BitAnd(x: nat, y: nat): nat {
    if x == 0 || y == 0 then 0 else (if x % 2 == 1 && y % 2 == 1 then 1 else 0) + 2 * BitAnd(x / 2, y / 2)
  }

  /** The mask of a table whose size is a power of two takes the remainder. */
  lemma {:induction false} MaskIsRemainder(h: nat, size: nat)
    requires PowerOfTwo(size)
    ensures BitAnd(h, size - 1) == h % size
    decreases size
  {
    hide BitAnd;
    if size == 1 || h == 0 {
      AndNothing(h, size);
    } else {
      var half := size / 2;
      assert size == 2 * half;
      MaskIsRemainder(h / 2, half);
      AndStep(h, half);
      HalfRemainder(h, half);
    }
  }

  lemma AndNothing(h: nat, size: nat)
    requires size == 1 || (h == 0 && size > 0)
    ensures BitAnd(h, size - 1) == 0 == h % size
  {
  }

  lemma AndStep(h: nat, half: nat)
    requires h > 0 && half > 0
    ensures BitAnd(h, 2 * half - 1) == h % 2 + 2 * BitAnd(h / 2, half - 1)
  {
    var y := 2 * half - 1;
    assert y % 2 == 1 && y / 2 == half - 1;
  }

  lemma HalfRemainder(h: nat, half: nat)
    requires half > 0
    ensures h % (2 * half) == h % 2 + 2 * ((h / 2) % half)
  {
    var q, r := (h / 2) / half, (h / 2) % half;
    assert h / 2 == q * half + r;
    assert h == q * (2 * half) + (2 * r + h % 2);
    RemainderIs(h, q, 2 * half, 2 * r + h % 2);
  }

  lemma RemainderIs(h: nat, q: nat, n: nat, r: nat)
    requires r < n && h == q * n + r
    ensures h % n == r
  {
    var d := h / n - q;
    assert d * n == r - h % n;
    MultipleFar(d, n);
  }

  lemma MultipleFar(d: int, n: nat)
    ensures d > 0 ==> d * n >= n
    ensures d < 0 ==> d * n <= -(n as int)
  {
  }

  /** Powers of two are at least a factor of two apart. */
  lemma {:induction false} PowersApart(p: nat, q: nat)
    requires PowerOfTwo(p) && PowerOfTwo(q) && p < q
    ensures 2 * p <= q
    decreases q
  {
    if p > 1 {
      PowersApart(p / 2, q / 2);
    }
  }

  /** A hash value under the mask of a table. */
  function Masked(h: nat, size: nat): (i: nat)
    requires PowerOfTwo(size)
    ensures i < size
  {
    MaskIsRemainder(h, size);
    BitAnd(h, size - 1)
  }

  function SlotIn<K>(hash: K -> nat, size: nat): K -> nat
    requires PowerOfTwo(size)
  {
    k => Masked(hash(k), size)
  }

  ghost function Count<K, V>(m: map<K, V>): nat { |m| }

  /** A table of empty chains. */
  method NewTable<K, V>(size: nat, ghost hash: K -> nat) returns (table: array<Chain<K, V>>)
    requires PowerOfTwo(size)
    ensures fresh(table) && table.Length == size && Holds(table[..], SlotIn(hash, size), map[])
  {
    table := new Chain<K, V>[size](_ => []);
    EmptyHolds(table[..], SlotIn(hash, size));
  }

  /** An entry goes to the front of its chain. */
  method LinkFirst<K, V>(table: array<Chain<K, V>>, hash: K -> nat, entry: Entry<K, V>, ghost all: map<K, Entry<K, V>>)
    requires PowerOfTwo(table.Length) && Holds(table[..], SlotIn(hash, table.Length), all) && entry.key !in all
    modifies table
    ensures Holds(table[..], SlotIn(hash, table.Length), all[entry.key := entry])
    ensures Count(all[entry.key := entry]) == Count(all) + 1
  {
    hide Holds, Masked;
    LinkHolds(table[..], SlotIn(hash, table.Length), all, entry);
    SizeAfter(all, entry.key, entry);
    ghost var before := table[..];
    var index := Masked(hash(entry.key), table.Length);
    table[index] := [entry] + table[index];
    assert table[..] == before[index := [entry] + before[index]];
  }

  /** The walk along a chain: where a key is, or the end. */
  method Search<K(==), V>(c: Chain<K, V>, key: K) returns (j: nat)
    ensures j <= |c| && (forall e :: e in c[..j] ==> e.key != key)
    ensures j < |c| ==> c[j].key == key
  {
    j := 0;
    while j < |c|
      invariant j <= |c| && forall e :: e in c[..j] ==> e.key != key
    {
      if c[j].key == key { return; }
      assert c[..j + 1] == c[..j] + [c[j]];
      j := j + 1;
    }
  }

  /** The search finds a key in the chain of its slot if and only if the table has it. */
  lemma SearchHolds<K, V>(table: seq<Chain<K, V>>, slot: K -> nat, all: map<K, Entry<K, V>>, key: K, j: nat)
    requires Holds(table, slot, all) && slot(key) < |table| && j <= |table[slot(key)]|
    requires forall e :: e in table[slot(key)][..j] ==> e.key != key
    requires j < |table[slot(key)]| ==> table[slot(key)][j].key == key
    ensures key in all <==> j < |table[slot(key)]|
    ensures key in all ==> all[key] == table[slot(key)][j]
  {
    var c := table[slot(key)];
    assert c[..|c|] == c;
    if j < |c| { assert c[j] in c; }
    forall k | k in all && k == key ensures all[k] in c && all[k].key == key {}
  }

  /** The entry at place `j` of chain `i` is unlinked. */
  method UnlinkPlace<K, V>(table: array<Chain<K, V>>, hash: K -> nat, i: nat, j: nat, ghost all: map<K, Entry<K, V>>)
    requires PowerOfTwo(table.Length) && Holds(table[..], SlotIn(hash, table.Length), all) && i < table.Length
      && j < |table[i]|
    modifies table
    ensures old(table[i][j]).key in all && all[old(table[i][j]).key] == old(table[i][j])
    ensures Holds(table[..], SlotIn(hash, table.Length), all - {old(table[i][j]).key})
    ensures table[i] == old(table[i][..j] + table[i][j + 1..]) && Count(all - {old(table[i][j]).key}) == Count(all) - 1
  {
    var c := table[i];
    assert c[j] in table[..][i];
    hide Holds, Masked, Unlink;
    UnlinkHolds(table[..], SlotIn(hash, table.Length), all, c[j].key);
    UnlinkAt(c, j);
    SizeAfter(all, c[j].key, c[j]);
    ghost var before := table[..];
    table[i] := c[..j] + c[j + 1..];
    assert table[..] == before[i := c[..j] + c[j + 1..]];
  }

  lemma WriteHolds<K, V>(table: seq<Chain<K, V>>, slot: K -> nat, all: map<K, Entry<K, V>>, i: nat, j: nat,
          e: Entry<K, V>)
    requires Holds(table, slot, all) && i < |table| && j < |table[i]| && table[i][j].key == e.key
    ensures Holds(table[i := table[i][j := e]], slot, all[e.key := e])
  {
    var c, d := table[i], table[i][j := e];
    assert c[j] in c;
    forall k | k in all && slot(k) == i ensures all[e.key := e][k] in d {
      var m :| 0 <= m < |c| && c[m] == all[k];
      assert d[m] in d;
    }
    forall x | x in d ensures slot(x.key) == i && x.key in all && all[e.key := e][x.key] == x {
      var m :| 0 <= m < |d| && d[m] == x;
      assert c[m] in c;
    }
    forall a, b | 0 <= a < b < |d| ensures d[a].key != d[b].key {
      assert c[a].key != c[b].key;
    }
    ChainHolds(table, slot, all, i, d, all[e.key := e]);
  }

  // ----- What has moved

  /** The chain `c` holds exactly the entries of slot `i`. */
  ghost predicate ChainOf<K, V>(c: Chain<K, V>, all: map<K, Entry<K, V>>, slot: K -> nat, i: nat) {
    && Distinct(c)
    && (forall m :: 0 <= m < |c| ==> c[m].key in all && all[c[m].key] == c[m] && slot(c[m].key) == i)
    && (forall k :: k in all && slot(k) == i ==> all[k] in c && all[k].key == k)
  }

  lemma HoldsChain<K, V>(table: seq<Chain<K, V>>, slot: K -> nat, all: map<K, Entry<K, V>>, i: nat)
    requires Holds(table, slot, all) && i < |table|
    ensures ChainOf(table[i], all, slot, i)
  {
    var c := table[i];
    forall m | 0 <= m < |c| ensures c[m].key in all && all[c[m].key] == c[m] && slot(c[m].key) == i {
      assert c[m] in c;
    }
  }

  /** The entries of the slots below `i` have moved. */
  ghost predicate Moved<K, V>(all: map<K, Entry<K, V>>, slot: K -> nat, moved: map<K, Entry<K, V>>, i: nat) {
    && (forall k :: k in moved ==> k in all && moved[k] == all[k] && slot(k) < i)
    && (forall k :: k in all && slot(k) < i ==> k in moved)
  }

  /** And the first `j` of slot `i`. */
  ghost predicate MovedPart<K, V>(c: Chain<K, V>, all: map<K, Entry<K, V>>, slot: K -> nat, moved: map<K, Entry<K, V>>,
          i: nat, j: nat) {
    && ChainOf(c, all, slot, i)
    && (forall k :: k in moved ==> k in all && moved[k] == all[k] && slot(k) <= i)
    && (forall k :: k in all && slot(k) < i ==> k in moved)
    && (forall m :: 0 <= m < |c| ==> (c[m].key in moved <==> m < j))
  }

  /** The entries of a chain move, one after the other, to the front of their new chains. */
  method MoveChain<K, V>(c: Chain<K, V>, bigger: array<Chain<K, V>>, hash: K -> nat, left: nat,
      ghost all: map<K, Entry<K, V>>, ghost slot: K -> nat, ghost moved: map<K, Entry<K, V>>, ghost i: nat)
    returns (left': nat, ghost moved': map<K, Entry<K, V>>)
    requires PowerOfTwo(bigger.Length) && Holds(bigger[..], SlotIn(hash, bigger.Length), moved)
    requires left + Count(moved) == Count(all) && ChainOf(c, all, slot, i) && Moved(all, slot, moved, i)
    modifies bigger
    ensures Holds(bigger[..], SlotIn(hash, bigger.Length), moved')
    ensures left' + Count(moved') == Count(all) && Moved(all, slot, moved', i + 1)
  {
    hide Holds, Moved, MovedPart, Masked, ChainOf, SlotIn, Count;
    var j := 0;
    left', moved' := left, moved;
    PartNone(c, all, slot, moved, i);
    while j < |c|
      invariant j <= |c| && Holds(bigger[..], SlotIn(hash, bigger.Length), moved')
      invariant MovedPart(c, all, slot, moved', i, j) && left' + Count(moved') == Count(all)
    {
      PartStep(c, all, slot, moved', i, j);
      LinkFirst(bigger, hash, c[j], moved');
      moved' := moved'[c[j].key := c[j]];
      left' := left' - 1;
      j := j + 1;
    }
    PartWhole(c, all, slot, moved', i);
  }

  lemma MovedNone<K, V>(all: map<K, Entry<K, V>>, slot: K -> nat, moved: map<K, Entry<K, V>>)
    requires moved == map[]
    ensures Moved(all, slot, moved, 0) && Count(moved) == 0
  {
  }

  lemma PartNone<K, V>(c: Chain<K, V>, all: map<K, Entry<K, V>>, slot: K -> nat, moved: map<K, Entry<K, V>>, i: nat)
    requires ChainOf(c, all, slot, i) && Moved(all, slot, moved, i)
    ensures MovedPart(c, all, slot, moved, i, 0)
  {
  }

  lemma PartStep<K, V>(c: Chain<K, V>, all: map<K, Entry<K, V>>, slot: K -> nat, moved: map<K, Entry<K, V>>, i: nat,
          j: nat)
    requires MovedPart(c, all, slot, moved, i, j) && j < |c|
    ensures c[j].key !in moved && Count(moved) < Count(all)
    ensures MovedPart(c, all, slot, moved[c[j].key := c[j]], i, j + 1)
  {
    SubsetSize(moved, all, c[j].key);
  }

  lemma PartWhole<K, V>(c: Chain<K, V>, all: map<K, Entry<K, V>>, slot: K -> nat, moved: map<K, Entry<K, V>>, i: nat)
    requires MovedPart(c, all, slot, moved, i, |c|)
    ensures Moved(all, slot, moved, i + 1)
  {
    forall k | k in all && slot(k) == i ensures k in moved {
      var m :| 0 <= m < |c| && c[m] == all[k];
      assert c[m].key in moved;
    }
  }

  lemma MovedAll<K, V>(table: seq<Chain<K, V>>, all: map<K, Entry<K, V>>, slot: K -> nat, moved: map<K, Entry<K, V>>,
          i: nat)
    requires Holds(table, slot, all) && Moved(all, slot, moved, i) && (i == |table| || |moved| == |all|)
    ensures moved == all
  {
    SetSize(moved.Keys, all.Keys);
    assert moved.Keys == all.Keys;
  }

  lemma EmptyHolds<K, V>(table: seq<Chain<K, V>>, slot: K -> nat)
    requires forall i :: 0 <= i < |table| ==> table[i] == []
    ensures Holds(table, slot, map[])
  {
  }

  lemma SubsetSize<K, V>(part: map<K, V>, all: map<K, V>, key: K)
    requires part.Keys <= all.Keys && key in all && key !in part
    ensures |part| < |all|
  {
    assert part.Keys <= all.Keys - {key};
    SetSize(part.Keys, all.Keys - {key});
  }

  lemma SetSize<K>(a: set<K>, b: set<K>)
    requires a <= b
    ensures |a| <= |b| && (|a| == |b| ==> a == b)
  {
    assert b == a + (b - a);
  }
}
