/** Differences between two depth lists and what a client makes of them (`accessws/aw_depth.c`). */
module DepthDiff {
  import opened Decimal

  datatype Level = Level(price: Dec, amount: Dec)

  /** Asks are listed with growing prices, bids with falling prices. */
  datatype Direction = RISING | FALLING

  predicate Ahead(dir: Direction, x: Dec, y: Dec) {
    if dir == RISING then x < y else y < x
  }

  ghost predicate Listed(s: seq<Level>, dir: Direction) {
    && (forall i, j | 0 <= i < j < |s| :: Ahead(dir, s[i].price, s[j].price))
    && (forall l | l in s :: l.amount > 0.0)
  }

  /** A reply that the matching engine may send: strictly ordered positive levels, at most `limit` of them. */
  ghost predicate Good(s: seq<Level>, dir: Direction, limit: nat) {
    Listed(s, dir) && |s| <= limit
  }

  function Deletions(s: seq<Level>): seq<Level> {
    if s == [] then [] else [Level(s[0].price, 0.0)] + Deletions(s[1..])
  }

  /** What `get_list_diff` appends from two cursors on; `full` says that the second list has `limit` levels. */
  function ListDiff(a: seq<Level>, b: seq<Level>, dir: Direction, full: bool): seq<Level>
    decreases |a| + |b|
  {
    if a != [] && b != [] then
      if a[0].price == b[0].price then (if a[0].amount != b[0].amount then [b[0]] else [])
        + ListDiff(a[1..], b[1..], dir, full)
      else if Ahead(dir, b[0].price, a[0].price) then [b[0]] + ListDiff(a, b[1..], dir, full)
      else [Level(a[0].price, 0.0)] + ListDiff(a[1..], b, dir, full)
    else (if full then [] else Deletions(a)) + b
  }

  /** `get_list_diff` */
  method GetListDiff(a: seq<Level>, b: seq<Level>, limit: nat, dir: Direction) returns (diff: seq<Level>)
    ensures diff == ListDiff(a, b, dir, |b| >= limit)
  {
    hide ListDiff, Deletions;
    diff := [];
    var i, j := 0, 0;
    ghost var full := |b| >= limit;
    assert a[0..] == a && b[0..] == b;
    while i < |a| && j < |b|
      invariant 0 <= i <= |a| && 0 <= j <= |b|
      invariant diff + ListDiff(a[i..], b[j..], dir, full) == ListDiff(a, b, dir, full)
      decreases |a| - i + |b| - j
    {
      CursorStep(a, b, i, j, dir, full, diff);
      if a[i].price == b[j].price {
        if a[i].amount != b[j].amount {
          diff := diff + [b[j]];
        }
        i, j := i + 1, j + 1;
      } else if Ahead(dir, b[j].price, a[i].price) {
        diff := diff + [b[j]];
        j := j + 1;
      } else {
        diff := diff + [Level(a[i].price, 0.0)];
        i := i + 1;
      }
    }
    CursorEnd(a, b, i, j, dir, full, diff);
    diff := AppendRest(diff, a, b, i, j, limit);
  }

  /** The two loops after the cursors: delete what is left of the first list unless the second one is full,
    then append what is left of the second list. */
  method AppendRest(start: seq<Level>, a: seq<Level>, b: seq<Level>, first: nat, second: nat, limit: nat)
    returns (diff: seq<Level>)
    requires first <= |a| && second <= |b|
    ensures diff == start + (if |b| >= limit then [] else Deletions(a[first..])) + b[second..]
  {
    hide Deletions;
    diff := start;
    var i, j := first, second;
    while |b| < limit && i < |a|
      invariant first <= i <= |a|
      invariant |b| < limit ==> diff + Deletions(a[i..]) == start + Deletions(a[first..])
      invariant |b| >= limit ==> diff == start
    {
      DeletionStep(a, i);
      Appended(diff, [Level(a[i].price, 0.0)], Deletions(a[i + 1..]));
      diff := diff + [Level(a[i].price, 0.0)];
      i := i + 1;
    }
    DeletionNone(a, i);
    assert diff + [] == diff && start + [] == start;
    ghost var mid := diff;
    while j < |b|
      invariant second <= j <= |b| && diff == mid + b[second..j]
    {
      Appended(mid, b[second..j], [b[j]]);
      assert b[second..j] + [b[j]] == b[second..j + 1];
      diff := diff + [b[j]];
      j := j + 1;
    }
  }

  lemma DeletionStep(a: seq<Level>, i: nat)
    requires i < |a|
    ensures Deletions(a[i..]) == [Level(a[i].price, 0.0)] + Deletions(a[i + 1..])
  {
    assert a[i..][1..] == a[i + 1..];
  }

  lemma DeletionNone(a: seq<Level>, i: nat)
    ensures i == |a| ==> Deletions(a[i..]) == []
  {
  }

  lemma CursorEnd(a: seq<Level>, b: seq<Level>, i: nat, j: nat, dir: Direction, full: bool, diff: seq<Level>)
    requires i <= |a| && j <= |b| && (i == |a| || j == |b|)
    ensures diff + ListDiff(a[i..], b[j..], dir, full) == diff + (if full then [] else Deletions(a[i..])) + b[j..]
  {
    Appended(diff, if full then [] else Deletions(a[i..]), b[j..]);
  }

  lemma CursorStep(a: seq<Level>, b: seq<Level>, i: nat, j: nat, dir: Direction, full: bool, diff: seq<Level>)
    requires i < |a| && j < |b|
    ensures var all := diff + ListDiff(a[i..], b[j..], dir, full);
      if a[i].price == b[j].price then
        all == (if a[i].amount != b[j].amount then diff + [b[j]] else diff)
          + ListDiff(a[i + 1..], b[j + 1..], dir, full)
      else if Ahead(dir, b[j].price, a[i].price) then
        all == diff + [b[j]] + ListDiff(a[i..], b[j + 1..], dir, full)
      else all == diff + [Level(a[i].price, 0.0)] + ListDiff(a[i + 1..], b[j..], dir, full)
  {
    assert a[i..][1..] == a[i + 1..] && b[j..][1..] == b[j + 1..];
    if a[i].price == b[j].price {
      Appended(diff, if a[i].amount != b[j].amount then [b[j]] else [], ListDiff(a[i + 1..], b[j + 1..], dir, full));
      assert diff + [] == diff;
    } else if Ahead(dir, b[j].price, a[i].price) {
      Appended(diff, [b[j]], ListDiff(a[i..], b[j + 1..], dir, full));
    } else {
      Appended(diff, [Level(a[i].price, 0.0)], ListDiff(a[i + 1..], b[j..], dir, full));
    }
  }

  lemma Appended(x: seq<Level>, y: seq<Level>, z: seq<Level>)
    ensures x + (y + z) == x + y + z
  {
  }

  // ----- What a client does with a difference

  /** Set the amount at a price; amount zero deletes the level. */
  function Upsert(view: seq<Level>, l: Level, dir: Direction): seq<Level> {
    if view == [] then (if l.amount == 0.0 then [] else [l])
    else if view[0].price == l.price then (if l.amount == 0.0 then view[1..] else [l] + view[1..])
    else if Ahead(dir, view[0].price, l.price) then [view[0]] + Upsert(view[1..], l, dir)
    else if l.amount == 0.0 then view
    else [l] + view
  }

  function ApplyAll(view: seq<Level>, diff: seq<Level>, dir: Direction): seq<Level>
    decreases |diff|
  {
    if diff == [] then view else ApplyAll(Upsert(view, diff[0], dir), diff[1..], dir)
  }

  /** Apply the levels of a difference and keep the first `limit`. */
  function ApplyDiff(view: seq<Level>, diff: seq<Level>, dir: Direction, limit: nat): seq<Level> {
    var all := ApplyAll(view, diff, dir);
    if |all| <= limit then all else all[..limit]
  }

  // ----- Lists as functions from prices to amounts

  function Amount(s: seq<Level>, p: Dec): Dec {
    if s == [] then 0.0 else if s[0].price == p then s[0].amount else Amount(s[1..], p)
  }

  predicate HasPrice(s: seq<Level>, p: Dec) {
    s != [] && (s[0].price == p || HasPrice(s[1..], p))
  }

  ghost predicate Distinct(s: seq<Level>) {
    s == [] || (!HasPrice(s[1..], s[0].price) && Distinct(s[1..]))
  }

  /** Everything in the list comes after this price. */
  ghost predicate Behind(s: seq<Level>, dir: Direction, p: Dec) {
    forall l | l in s :: Ahead(dir, p, l.price)
  }

  lemma ListedTail(s: seq<Level>, dir: Direction)
    requires Listed(s, dir) && s != []
    ensures Listed(s[1..], dir) && Behind(s[1..], dir, s[0].price) && s[0].amount > 0.0
    ensures forall l :: l in s <==> l == s[0] || l in s[1..]
  {
    assert s == [s[0]] + s[1..];
    forall l | l in s[1..] ensures Ahead(dir, s[0].price, l.price) {
      var j :| 0 <= j < |s[1..]| && s[1..][j] == l;
      assert s[j + 1] == l;
    }
  }

  lemma ListedCons(l: Level, s: seq<Level>, dir: Direction)
    requires Listed(s, dir) && Behind(s, dir, l.price) && l.amount > 0.0
    ensures Listed([l] + s, dir)
  {
    var t := [l] + s;
    forall i, j | 0 <= i < j < |t| ensures Ahead(dir, t[i].price, t[j].price) {
      assert t[j] == s[j - 1] && s[j - 1] in s;
    }
  }

  lemma {:induction false} BehindAbsent(s: seq<Level>, dir: Direction, p: Dec, q: Dec)
    requires Behind(s, dir, p) && (q == p || Ahead(dir, q, p))
    ensures !HasPrice(s, q) && Amount(s, q) == 0.0
  {
    if s != [] {
      assert s[0] in s;
      BehindAbsent(s[1..], dir, p, q);
    }
  }

  lemma {:induction false} PresentPositive(s: seq<Level>, dir: Direction, p: Dec)
    requires Listed(s, dir)
    ensures HasPrice(s, p) <==> Amount(s, p) > 0.0
    ensures Amount(s, p) >= 0.0
  {
    if s != [] {
      ListedTail(s, dir);
      PresentPositive(s[1..], dir, p);
    }
  }

  // ----- Applying

  lemma {:induction false} UpsertMeaning(view: seq<Level>, l: Level, dir: Direction, p: Dec)
    requires Listed(view, dir) && l.amount >= 0.0
    ensures Listed(Upsert(view, l, dir), dir)
    ensures Amount(Upsert(view, l, dir), p) == if p == l.price then l.amount else Amount(view, p)
    ensures forall q | Behind(view, dir, q) && Ahead(dir, q, l.price) :: Behind(Upsert(view, l, dir), dir, q)
  {
    if view != [] {
      ListedTail(view, dir);
      if view[0].price == l.price {
        BehindAbsent(view[1..], dir, l.price, l.price);
        if l.amount != 0.0 { ListedCons(l, view[1..], dir); }
      } else if Ahead(dir, view[0].price, l.price) {
        UpsertMeaning(view[1..], l, dir, p);
        ListedCons(view[0], Upsert(view[1..], l, dir), dir);
      } else {
        assert Behind(view, dir, l.price);
        BehindAbsent(view, dir, l.price, l.price);
        if l.amount != 0.0 { ListedCons(l, view, dir); }
      }
    }
  }

  lemma {:induction false} ApplyMeaning(view: seq<Level>, diff: seq<Level>, dir: Direction, p: Dec)
    requires Listed(view, dir) && Distinct(diff) && forall l | l in diff :: l.amount >= 0.0
    ensures Listed(ApplyAll(view, diff, dir), dir)
    ensures Amount(ApplyAll(view, diff, dir), p) == if HasPrice(diff, p) then Amount(diff, p) else Amount(view, p)
    decreases |diff|
  {
    if diff != [] {
      assert diff[0] in diff;
      UpsertMeaning(view, diff[0], dir, p);
      ApplyMeaning(Upsert(view, diff[0], dir), diff[1..], dir, p);
    }
  }

  // ----- The difference

  lemma {:induction false} DeletionsMeaning(s: seq<Level>, dir: Direction, p: Dec)
    requires Listed(s, dir)
    ensures Distinct(Deletions(s)) && (forall l | l in Deletions(s) :: l.amount == 0.0)
    ensures HasPrice(Deletions(s), p) == HasPrice(s, p) && Amount(Deletions(s), p) == 0.0
    ensures forall q | Behind(s, dir, q) :: Behind(Deletions(s), dir, q)
  {
    if s != [] {
      ListedTail(s, dir);
      DeletionsMeaning(s[1..], dir, p);
      BehindAbsent(Deletions(s[1..]), dir, s[0].price, s[0].price);
      forall q | Behind(s, dir, q) ensures Behind(Deletions(s), dir, q) {
        assert s[0] in s;
        assert Behind(s[1..], dir, q);
      }
    }
  }

  lemma {:induction false} ListedDistinct(s: seq<Level>, dir: Direction)
    requires Listed(s, dir)
    ensures Distinct(s)
  {
    if s != [] {
      ListedTail(s, dir);
      BehindAbsent(s[1..], dir, s[0].price, s[0].price);
      ListedDistinct(s[1..], dir);
    }
  }

  /** A price that the difference does not mention has the same amount in both lists, unless the second list
    is full and the price lies beyond it. A price that it does mention has the amount of the second list. */
  ghost predicate DiffAt(a: seq<Level>, b: seq<Level>, diff: seq<Level>, dir: Direction, full: bool, p: Dec) {
    if HasPrice(diff, p) then Amount(diff, p) == Amount(b, p)
    else Amount(a, p) == Amount(b, p) || (full && forall l | l in b :: Ahead(dir, l.price, p))
  }

  lemma {:induction false} BehindPresent(s: seq<Level>, dir: Direction, q: Dec, p: Dec)
    requires Behind(s, dir, q) && Amount(s, p) != 0.0
    ensures Ahead(dir, q, p)
  {
    assert s[0] in s;
    if s[0].price != p {
      BehindPresent(s[1..], dir, q, p);
    }
  }

  lemma BehindFurther(s: seq<Level>, dir: Direction, q: Dec, r: Dec)
    requires Behind(s, dir, q) && Ahead(dir, r, q)
    ensures Behind(s, dir, r)
  {
  }

  lemma ConsBehind(l: Level, s: seq<Level>, dir: Direction)
    ensures forall q :: Behind([l] + s, dir, q) <==> Ahead(dir, q, l.price) && Behind(s, dir, q)
  {
    forall q ensures Behind([l] + s, dir, q) <==> Ahead(dir, q, l.price) && Behind(s, dir, q) {
      var t := [l] + s;
      assert forall x :: x in t <==> x == l || x in s;
    }
  }

  /** The invariant of the two cursors. */
  ghost predicate DiffOk(a: seq<Level>, b: seq<Level>, d: seq<Level>, dir: Direction, full: bool, p: Dec) {
    && DiffAt(a, b, d, dir, full, p) && Distinct(d) && (forall l | l in d :: l.amount >= 0.0)
    && (forall q | Behind(a, dir, q) && Behind(b, dir, q) :: Behind(d, dir, q))
  }

  lemma BothMove(a: seq<Level>, b: seq<Level>, d: seq<Level>, dir: Direction, full: bool, p: Dec)
    requires Listed(a, dir) && Listed(b, dir) && a != [] && b != [] && a[0].price == b[0].price
    requires DiffOk(a[1..], b[1..], d, dir, full, p)
    ensures DiffOk(a, b, (if a[0].amount != b[0].amount then [b[0]] else []) + d, dir, full, p)
  {
    var p0 := a[0].price;
    ListedTail(a, dir);
    ListedTail(b, dir);
    BehindAbsent(d, dir, p0, p0);
    ConsBehind(b[0], d, dir);
    var d' := (if a[0].amount != b[0].amount then [b[0]] else []) + d;
    assert a[0].amount == b[0].amount ==> d' == d;
    assert a[0].amount != b[0].amount ==> d'[1..] == d;
    if p != p0 && Amount(a[1..], p) != Amount(b[1..], p) {
      if Amount(a[1..], p) != 0.0 { BehindPresent(a[1..], dir, p0, p); } else { BehindPresent(b[1..], dir, p0, p); }
    }
    forall q | Behind(a, dir, q) && Behind(b, dir, q) ensures Behind(d', dir, q) {
      assert a[0] in a && Behind(a[1..], dir, q) && Behind(b[1..], dir, q);
    }
  }

  lemma SecondMoves(a: seq<Level>, b: seq<Level>, d: seq<Level>, dir: Direction, full: bool, p: Dec)
    requires Listed(a, dir) && Listed(b, dir) && a != [] && b != [] && Ahead(dir, b[0].price, a[0].price)
    requires DiffOk(a, b[1..], d, dir, full, p)
    ensures DiffOk(a, b, [b[0]] + d, dir, full, p)
  {
    var p0 := b[0].price;
    ListedTail(a, dir);
    ListedTail(b, dir);
    BehindFurther(a[1..], dir, a[0].price, p0);
    ConsBehind(a[0], a[1..], dir);
    assert [a[0]] + a[1..] == a;
    BehindAbsent(d, dir, p0, p0);
    BehindAbsent(a, dir, p0, p0);
    ConsBehind(b[0], d, dir);
    assert ([b[0]] + d)[1..] == d;
    if p != p0 && Amount(a, p) != Amount(b[1..], p) {
      if Amount(a, p) != 0.0 { BehindPresent(a, dir, p0, p); } else { BehindPresent(b[1..], dir, p0, p); }
    }
    forall q | Behind(a, dir, q) && Behind(b, dir, q) ensures Behind([b[0]] + d, dir, q) {
      assert b[0] in b && Behind(b[1..], dir, q);
    }
  }

  lemma FirstMoves(a: seq<Level>, b: seq<Level>, d: seq<Level>, dir: Direction, full: bool, p: Dec)
    requires Listed(a, dir) && Listed(b, dir) && a != [] && b != [] && Ahead(dir, a[0].price, b[0].price)
    requires DiffOk(a[1..], b, d, dir, full, p)
    ensures DiffOk(a, b, [Level(a[0].price, 0.0)] + d, dir, full, p)
  {
    var p0 := a[0].price;
    ListedTail(a, dir);
    ListedTail(b, dir);
    BehindFurther(b[1..], dir, b[0].price, p0);
    ConsBehind(b[0], b[1..], dir);
    assert [b[0]] + b[1..] == b;
    BehindAbsent(d, dir, p0, p0);
    BehindAbsent(b, dir, p0, p0);
    ConsBehind(Level(p0, 0.0), d, dir);
    assert ([Level(p0, 0.0)] + d)[1..] == d;
    forall q | Behind(a, dir, q) && Behind(b, dir, q) ensures Behind([Level(p0, 0.0)] + d, dir, q) {
      assert a[0] in a && Behind(a[1..], dir, q);
    }
  }

  /** What the difference of two lists means, price by price. */
  lemma {:induction false} DiffMeaning(a: seq<Level>, b: seq<Level>, dir: Direction, full: bool, p: Dec)
    requires Listed(a, dir) && Listed(b, dir)
    ensures DiffOk(a, b, ListDiff(a, b, dir, full), dir, full, p)
    decreases |a| + |b|
  {
    if a != [] && b != [] {
      ListedTail(a, dir);
      ListedTail(b, dir);
      if a[0].price == b[0].price {
        DiffMeaning(a[1..], b[1..], dir, full, p);
        BothMove(a, b, ListDiff(a[1..], b[1..], dir, full), dir, full, p);
      } else if Ahead(dir, b[0].price, a[0].price) {
        DiffMeaning(a, b[1..], dir, full, p);
        SecondMoves(a, b, ListDiff(a, b[1..], dir, full), dir, full, p);
      } else {
        DiffMeaning(a[1..], b, dir, full, p);
        FirstMoves(a, b, ListDiff(a[1..], b, dir, full), dir, full, p);
      }
    } else if a == [] {
      ListedDistinct(b, dir);
      PresentPositive(b, dir, p);
      assert ListDiff(a, b, dir, full) == b;
    } else {
      DeletionsMeaning(a, dir, p);
      PresentPositive(a, dir, p);
      assert ListDiff(a, b, dir, full) == if full then [] else Deletions(a);
    }
  }

  // ----- Applying the difference gives the second list

  /** A sorted list that agrees with `b` on every price not beyond `b` starts with `b`. */
  lemma {:induction false} AgreesUpTo(r: seq<Level>, b: seq<Level>, dir: Direction)
    requires Listed(r, dir) && Listed(b, dir)
    requires forall p :: Amount(r, p) == Amount(b, p) || forall l | l in b :: Ahead(dir, l.price, p)
    ensures b <= r
    decreases |b|
  {
    if b != [] {
      ListedTail(b, dir);
      var p0 := b[0].price;
      assert b[0] in b && !Ahead(dir, p0, p0);
      assert Amount(r, p0) == b[0].amount;
      ListedTail(r, dir);
      var q0 := r[0].price;
      if q0 != p0 {
        PresentPositive(r, dir, p0);
        if Ahead(dir, p0, q0) {
          BehindFurther(r[1..], dir, q0, p0);
          BehindAbsent(r[1..], dir, p0, p0);
          assert false;
        }
        assert Amount(r, q0) == Amount(b, q0);
        BehindAbsent(b[1..], dir, p0, q0);
        assert false;
      }
      forall p ensures Amount(r[1..], p) == Amount(b[1..], p) || forall l | l in b[1..] :: Ahead(dir, l.price, p) {
        if p == p0 {
          BehindAbsent(r[1..], dir, p0, p0);
          BehindAbsent(b[1..], dir, p0, p0);
        } else {
          assert Amount(r, p) == Amount(r[1..], p) && Amount(b, p) == Amount(b[1..], p);
        }
      }
      AgreesUpTo(r[1..], b[1..], dir);
      assert r == [r[0]] + r[1..] && b == [b[0]] + b[1..];
    }
  }

  lemma {:induction false} AgreesEverywhere(r: seq<Level>, b: seq<Level>, dir: Direction)
    requires Listed(r, dir) && Listed(b, dir) && forall p :: Amount(r, p) == Amount(b, p)
    ensures r == b
  {
    AgreesUpTo(r, b, dir);
    AgreesUpTo(b, r, dir);
  }

  /** A client that held the first list and applies the difference holds the second list. */
  lemma DiffApplies(a: seq<Level>, b: seq<Level>, dir: Direction, limit: nat)
    requires Good(a, dir, limit) && Good(b, dir, limit)
    ensures ApplyDiff(a, ListDiff(a, b, dir, |b| >= limit), dir, limit) == b
  {
    hide Listed, ListDiff, ApplyAll, Amount, HasPrice, Distinct;
    var full := |b| >= limit;
    var d := ListDiff(a, b, dir, full);
    var r := ApplyAll(a, d, dir);
    DiffMeaning(a, b, dir, full, 0.0);
    ApplyMeaning(a, d, dir, 0.0);
    forall p: Dec ensures Amount(r, p) == Amount(b, p) || (full && forall l | l in b :: Ahead(dir, l.price, p)) {
      DiffMeaning(a, b, dir, full, p);
      ApplyMeaning(a, d, dir, p);
    }
    AgreesUpTo(r, b, dir);
    if !full {
      AgreesEverywhere(r, b, dir);
    }
  }

  lemma {:induction false} SameNoDiff(a: seq<Level>, dir: Direction, full: bool)
    ensures ListDiff(a, a, dir, full) == []
  {
    if a != [] { SameNoDiff(a[1..], dir, full); }
  }

  /** The difference is empty exactly when the lists agree. */
  lemma DiffEmptyIff(a: seq<Level>, b: seq<Level>, dir: Direction, limit: nat)
    requires Good(a, dir, limit) && Good(b, dir, limit)
    ensures ListDiff(a, b, dir, |b| >= limit) == [] <==> a == b
  {
    DiffApplies(a, b, dir, limit);
    SameNoDiff(a, dir, |b| >= limit);
  }
}
