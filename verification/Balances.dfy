/** The balance dictionary as a value (`matchengine/me_balance.c`).

  The program deletes an entry that becomes exactly zero but may leave a zero entry behind after a
  truncation. A reader cannot tell the two apart, so the value keeps no zero entries at all. */
module Balances {
  import opened Decimal

  type Asset = string
  type UserId = nat

  datatype AssetType = AssetType(precSave: nat, precShow: nat)
  type Assets = map<Asset, AssetType>

  datatype Kind = AVAILABLE | FREEZE
  datatype Key = Key(user: UserId, kind: Kind, asset: Asset)
  type Balance = map<Key, Dec>

  datatype Outcome = Outcome(ok: bool, balance: Balance)

  function At(b: Balance, k: Key): Dec {
    if k in b then b[k] else 0.0
  }

  function Put(b: Balance, k: Key, v: Dec): Balance {
    if v == 0.0 then b - {k} else b[k := v]
  }

  /** `balance_set` */
  function Set(assets: Assets, b: Balance, k: Key, amount: Dec): Outcome {
    if k.asset !in assets || amount < 0.0 then Outcome(false, b)
    else Outcome(true, Put(b, k, Truncate(amount, assets[k.asset].precSave)))
  }

  /** `balance_add` */
  function Add(assets: Assets, b: Balance, k: Key, amount: Dec): Outcome {
    if k.asset !in assets || amount < 0.0 then Outcome(false, b)
    else Outcome(true, Put(b, k, Truncate(At(b, k) + amount, assets[k.asset].precSave)))
  }

  /** `balance_sub` */
  function Sub(assets: Assets, b: Balance, k: Key, amount: Dec): Outcome {
    if k.asset !in assets || amount < 0.0 || At(b, k) < amount then Outcome(false, b)
    else Outcome(true, Put(b, k, Truncate(At(b, k) - amount, assets[k.asset].precSave)))
  }

  /** Move an amount between two balances of one user: the common shape of `balance_freeze`
    (available to frozen) and `balance_unfreeze` (frozen to available). */
  function Move(assets: Assets, b: Balance, user: UserId, asset: Asset, from: Kind, amount: Dec): Outcome {
    var source, target := Key(user, from, asset), Key(user, Other(from), asset);
    if asset !in assets || amount < 0.0 || At(b, source) < amount then Outcome(false, b)
    else
      var added := Add(assets, b, target, amount).balance;
      Outcome(true, Put(added, source, Truncate(At(b, source) - amount, assets[asset].precSave)))
  }

  function Other(kind: Kind): Kind {
    if kind == AVAILABLE then FREEZE else AVAILABLE
  }

  /** What every reachable balance dictionary satisfies. */
  ghost predicate Sound(assets: Assets, b: Balance) {
    forall k | k in b :: k.asset in assets && b[k] > 0.0 && OnGrid(b[k], assets[k.asset].precSave)
  }

  lemma SoundAt(assets: Assets, b: Balance, k: Key)
    requires Sound(assets, b) && k.asset in assets
    ensures At(b, k) >= 0.0 && OnGrid(At(b, k), assets[k.asset].precSave)
  {
    OnGridZero(assets[k.asset].precSave);
  }

  lemma PutSound(assets: Assets, b: Balance, k: Key, v: Dec)
    requires Sound(assets, b) && k.asset in assets
    requires v >= 0.0 && OnGrid(v, assets[k.asset].precSave)
    ensures Sound(assets, Put(b, k, v))
    ensures At(Put(b, k, v), k) == v
    ensures forall j | j != k :: At(Put(b, k, v), j) == At(b, j)
  {
  }

  /** What each operation refuses: an unknown asset, a negative amount, and to take more than there is. A refused one
    changes nothing, and an accepted one no balance but its own. */
  lemma Refusals(assets: Assets, b: Balance, k: Key, amount: Dec)
    ensures var put, add, sub, move := Set(assets, b, k, amount), Add(assets, b, k, amount), Sub(assets, b, k, amount),
        Move(assets, b, k.user, k.asset, k.kind, amount);
      && (put.ok <==> k.asset in assets && amount >= 0.0) && (add.ok <==> k.asset in assets && amount >= 0.0)
      && (sub.ok <==> k.asset in assets && 0.0 <= amount <= At(b, k)) && (move.ok <==> sub.ok)
      && (forall r | r in [put, add, sub, move] :: !r.ok ==> r.balance == b)
      && (forall j | j != k ::
        At(put.balance, j) == At(add.balance, j) == At(sub.balance, j) == At(b, j)
        && (j != Key(k.user, if k.kind == AVAILABLE then FREEZE else AVAILABLE, k.asset) ==>
          At(move.balance, j) == At(b, j)))
      && (put.ok ==> At(put.balance, k) == Truncate(amount, assets[k.asset].precSave))
  {
    hide Truncate;
  }

  /** On a sound dictionary an amount that is a whole number of units is added exactly. */
  lemma AddExact(assets: Assets, b: Balance, k: Key, amount: Dec)
    requires Sound(assets, b) && k.asset in assets
    requires amount >= 0.0 && OnGrid(amount, assets[k.asset].precSave)
    ensures var r := Add(assets, b, k, amount);
      r.ok && r.balance == Put(b, k, At(b, k) + amount) && Sound(assets, r.balance)
  {
    var p := assets[k.asset].precSave;
    SoundAt(assets, b, k);
    TruncatedAdd(At(b, k), amount, p);
    TruncateExact(amount, p);
    PutSound(assets, b, k, At(b, k) + amount);
  }

  /** A covered subtraction succeeds and takes the amount rounded up to a whole unit. */
  lemma SubRoundsUp(assets: Assets, b: Balance, k: Key, amount: Dec)
    requires Sound(assets, b) && k.asset in assets
    requires 0.0 <= amount <= At(b, k)
    ensures var r := Sub(assets, b, k, amount);
      r.ok && r.balance == Put(b, k, At(b, k) - RoundUp(amount, assets[k.asset].precSave))
      && RoundUp(amount, assets[k.asset].precSave) <= At(b, k)
      && Sound(assets, r.balance)
  {
    var p := assets[k.asset].precSave;
    SoundAt(assets, b, k);
    TruncatedSub(At(b, k), amount, p);
    PutSound(assets, b, k, At(b, k) - RoundUp(amount, p));
  }

  lemma SubExact(assets: Assets, b: Balance, k: Key, amount: Dec)
    requires Sound(assets, b) && k.asset in assets
    requires 0.0 <= amount <= At(b, k) && OnGrid(amount, assets[k.asset].precSave)
    ensures var r := Sub(assets, b, k, amount);
      r.ok && r.balance == Put(b, k, At(b, k) - amount) && Sound(assets, r.balance)
  {
    SubRoundsUp(assets, b, k, amount);
    RoundUpExact(amount, assets[k.asset].precSave);
  }

  lemma MoveExact(assets: Assets, b: Balance, user: UserId, asset: Asset, from: Kind, amount: Dec)
    requires Sound(assets, b) && asset in assets
    requires 0.0 <= amount <= At(b, Key(user, from, asset)) && OnGrid(amount, assets[asset].precSave)
    ensures var source, target := Key(user, from, asset), Key(user, Other(from), asset);
      var r := Move(assets, b, user, asset, from, amount);
      r.ok && r.balance == Put(Put(b, target, At(b, target) + amount), source, At(b, source) - amount)
      && Sound(assets, r.balance)
  {
    var source, target := Key(user, from, asset), Key(user, Other(from), asset);
    AddExact(assets, b, target, amount);
    var mid := Put(b, target, At(b, target) + amount);
    assert At(mid, source) == At(b, source);
    SubExact(assets, mid, source, amount);
    MoveIsAddThenSub(assets, b, user, asset, from, amount);
  }

  lemma MoveIsAddThenSub(assets: Assets, b: Balance, user: UserId, asset: Asset, from: Kind, amount: Dec)
    requires asset in assets && 0.0 <= amount <= At(b, Key(user, from, asset))
    ensures var mid := Add(assets, b, Key(user, Other(from), asset), amount).balance;
      Move(assets, b, user, asset, from, amount) == Sub(assets, mid, Key(user, from, asset), amount)
  {
    assert Key(user, Other(from), asset) != Key(user, from, asset);
  }

  /** The sum over all users and both kinds, as `balance_status` reports it. */
  ghost function Total(b: Balance, asset: Asset): Dec
    decreases |b|
  {
    if b == map[] then 0.0
    else
      var k :| k in b;
      (if k.asset == asset then b[k] else 0.0) + Total(b - {k}, asset)
  }

  /** The total does not depend on the order in which the dictionary is walked. */
  lemma {:induction false} TotalWithout(b: Balance, asset: Asset, k: Key)
    requires k in b
    ensures Total(b, asset) == (if k.asset == asset then b[k] else 0.0) + Total(b - {k}, asset)
    decreases |b|
  {
    var j :| j in b && Total(b, asset) == (if j.asset == asset then b[j] else 0.0) + Total(b - {j}, asset);
    if j != k {
      TotalWithout(b - {j}, asset, k);
      TotalWithout(b - {k}, asset, j);
      assert b - {j} - {k} == b - {k} - {j};
    }
  }

  lemma TotalPut(b: Balance, asset: Asset, k: Key, v: Dec)
    ensures Total(Put(b, k, v), asset) == Total(b, asset) + (if k.asset == asset then v - At(b, k) else 0.0)
  {
    var c := Put(b, k, v);
    assert c - {k} == b - {k};
    if k in b {
      TotalWithout(b, asset, k);
    } else {
      assert b - {k} == b;
    }
    if k in c {
      TotalWithout(c, asset, k);
    } else {
      assert c - {k} == c;
    }
  }

  /** `c` differs from `b` by `delta` at one key, and so do the totals of that asset. */
  ghost predicate Changed(b: Balance, c: Balance, k: Key, delta: Dec) {
    && (forall j :: At(c, j) == At(b, j) + (if j == k then delta else 0.0))
    && (forall a :: Total(c, a) == Total(b, a) + (if a == k.asset then delta else 0.0))
  }

  lemma PutChanges(b: Balance, k: Key, delta: Dec)
    ensures Changed(b, Put(b, k, At(b, k) + delta), k, delta)
  {
    forall a ensures Total(Put(b, k, At(b, k) + delta), a) == Total(b, a) + (if a == k.asset then delta else 0.0) {
      TotalPut(b, a, k, At(b, k) + delta);
    }
  }

  lemma AddChanges(assets: Assets, b: Balance, k: Key, amount: Dec)
    requires Sound(assets, b) && k.asset in assets
    requires amount >= 0.0 && OnGrid(amount, assets[k.asset].precSave)
    ensures var r := Add(assets, b, k, amount);
      r.ok && Sound(assets, r.balance) && Changed(b, r.balance, k, amount)
  {
    AddExact(assets, b, k, amount);
    PutChanges(b, k, amount);
  }

  lemma SubChanges(assets: Assets, b: Balance, k: Key, amount: Dec)
    requires Sound(assets, b) && k.asset in assets
    requires 0.0 <= amount <= At(b, k)
    ensures var r := Sub(assets, b, k, amount);
      r.ok && Sound(assets, r.balance) && Changed(b, r.balance, k, -RoundUp(amount, assets[k.asset].precSave))
  {
    SubRoundsUp(assets, b, k, amount);
    PutChanges(b, k, -RoundUp(amount, assets[k.asset].precSave));
  }
}
