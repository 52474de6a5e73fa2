/** The balance dictionary as the program keeps it (`matchengine/me_balance.c`), refining `Balances`. */
module LedgerStore {
  import opened Decimal
  import opened Balances

  class Ledger {
    const assets: Assets
    var balance: map<Key, Dec>

    /** The dictionary without the zero entries that a truncation can leave behind. */
    ghost function Contents(): Balance
      reads this
    {
      map k | k in balance && balance[k] != 0.0 :: balance[k]
    }

    constructor (assets: Assets)
      ensures this.assets == assets && balance == map[] && Contents() == map[]
    {
      this.assets := assets;
      balance := map[];
    }

    /** `balance_get`: an entry, or a default of zero. The checks of an order treat a missing entry as too
      little, which for a positive amount is the same. */
    method Get(k: Key) returns (found: bool, amount: Dec)
      ensures found == (k in balance) && amount == At(Contents(), k)
    {
      found := k in balance;
      amount := if found then balance[k] else 0.0;
    }

    /** `balance_del` */
    method Del(k: Key)
      modifies this
      ensures Contents() == old(Contents()) - {k}
      ensures balance == old(balance) - {k}
    {
      balance := balance - {k};
    }

    /** `balance_set` */
    method Set(k: Key, amount: Dec) returns (ok: bool)
      modifies this
      ensures ok == Balances.Set(assets, old(Contents()), k, amount).ok
      ensures Contents() == Balances.Set(assets, old(Contents()), k, amount).balance
      ensures !ok ==> balance == old(balance)
      ensures forall j | j != k ::
        (j in balance <==> j in old(balance)) && (j in balance ==> balance[j] == old(balance[j]))
    {
      if k.asset !in assets || amount < 0.0 {
        return false;
      }
      ghost var before := Contents();
      if amount == 0.0 {
        TruncateZero(assets[k.asset].precSave);
        Del(k);
        return true;
      }
      balance := balance[k := Truncate(amount, assets[k.asset].precSave)];
      assert Contents() == Put(before, k, Truncate(amount, assets[k.asset].precSave));
      ok := true;
    }

    /** `balance_add` */
    method Add(k: Key, amount: Dec) returns (ok: bool)
      modifies this
      ensures ok == Balances.Add(assets, old(Contents()), k, amount).ok
      ensures Contents() == Balances.Add(assets, old(Contents()), k, amount).balance
      ensures !ok ==> balance == old(balance)
      ensures forall j | j != k ::
        (j in balance <==> j in old(balance)) && (j in balance ==> balance[j] == old(balance[j]))
    {
      if k.asset !in assets || amount < 0.0 {
        return false;
      }
      ghost var before := Contents();
      if k in balance {
        balance := balance[k := Truncate(balance[k] + amount, assets[k.asset].precSave)];
        assert Contents() == Put(before, k, Truncate(At(before, k) + amount, assets[k.asset].precSave));
        return true;
      }
      ok := Set(k, amount);
    }

    /** `balance_sub`: taking nothing from a missing entry fails, and changes nothing. */
    method Sub(k: Key, amount: Dec) returns (ok: bool)
      modifies this
      ensures amount > 0.0 ==> ok == Balances.Sub(assets, old(Contents()), k, amount).ok
      ensures ok ==> Contents() == Balances.Sub(assets, old(Contents()), k, amount).balance
      ensures !ok ==> balance == old(balance)
    {
      if k.asset !in assets || amount < 0.0 || k !in balance || balance[k] < amount {
        return false;
      }
      ghost var before := Contents();
      var rest := balance[k] - amount;
      if rest == 0.0 {
        TruncateZero(assets[k.asset].precSave);
        Del(k);
        return true;
      }
      balance := balance[k := Truncate(rest, assets[k.asset].precSave)];
      assert Contents() == Put(before, k, Truncate(rest, assets[k.asset].precSave));
      ok := true;
    }

    /** `balance_freeze` and `balance_unfreeze`: the two differ only in which balance is the source. */
    method Move(user: UserId, asset: Asset, from: Kind, amount: Dec) returns (ok: bool)
      modifies this
      ensures amount > 0.0 ==> ok == Balances.Move(assets, old(Contents()), user, asset, from, amount).ok
      ensures ok ==> Contents() == Balances.Move(assets, old(Contents()), user, asset, from, amount).balance
      ensures !ok ==> balance == old(balance)
    {
      var source, target := Key(user, from, asset), Key(user, Other(from), asset);
      if asset !in assets || amount < 0.0 || source !in balance || balance[source] < amount {
        return false;
      }
      assert source != target;
      var added := Add(target, amount);
      ghost var mid := Contents();
      var rest := balance[source] - amount;
      if rest == 0.0 {
        TruncateZero(assets[asset].precSave);
        Del(source);
        return true;
      }
      balance := balance[source := Truncate(rest, assets[asset].precSave)];
      assert Contents() == Put(mid, source, Truncate(rest, assets[asset].precSave));
      ok := true;
    }

    method Freeze(user: UserId, asset: Asset, amount: Dec) returns (ok: bool)
      modifies this
      ensures amount > 0.0 ==> ok == Balances.Move(assets, old(Contents()), user, asset, AVAILABLE, amount).ok
      ensures ok ==> Contents() == Balances.Move(assets, old(Contents()), user, asset, AVAILABLE, amount).balance
      ensures !ok ==> balance == old(balance)
    {
      ok := Move(user, asset, AVAILABLE, amount);
    }

    method Unfreeze(user: UserId, asset: Asset, amount: Dec) returns (ok: bool)
      modifies this
      ensures amount > 0.0 ==> ok == Balances.Move(assets, old(Contents()), user, asset, FREEZE, amount).ok
      ensures ok ==> Contents() == Balances.Move(assets, old(Contents()), user, asset, FREEZE, amount).balance
      ensures !ok ==> balance == old(balance)
    {
      ok := Move(user, asset, FREEZE, amount);
    }

    /** How many entries of a kind the dictionary has for an asset. Zero entries count too. */
    ghost function Entries(asset: Asset, kind: Kind): nat
      reads this
    {
      |KeysOf(balance, asset, kind)|
    }

    /** `balance_status`: one walk over the dictionary adds up and counts each kind of an asset. */
    method Status(asset: Asset)
      returns (total: Dec, availableCount: nat, available: Dec, freezeCount: nat, freeze: Dec)
      ensures total == Total(Contents(), asset) && total == available + freeze
      ensures available == TotalOf(Contents(), asset, AVAILABLE) && freeze == TotalOf(Contents(), asset, FREEZE)
      ensures availableCount == Entries(asset, AVAILABLE) && freezeCount == Entries(asset, FREEZE)
    {
      hide Total, TotalOf;
      total, availableCount, available, freezeCount, freeze := 0.0, 0, 0.0, 0, 0.0;
      var rest := balance;
      ghost var left := Contents();
      while rest != map[]
        invariant left == map k | k in rest && rest[k] != 0.0 :: rest[k]
        invariant total + Total(left, asset) == Total(Contents(), asset) && total == available + freeze
        invariant available + TotalOf(left, asset, AVAILABLE) == TotalOf(Contents(), asset, AVAILABLE)
        invariant freeze + TotalOf(left, asset, FREEZE) == TotalOf(Contents(), asset, FREEZE)
        invariant availableCount + |KeysOf(rest, asset, AVAILABLE)| == Entries(asset, AVAILABLE)
        invariant freezeCount + |KeysOf(rest, asset, FREEZE)| == Entries(asset, FREEZE)
        decreases |rest|
      {
        var k :| k in rest;
        if k.asset == asset {
          total := total + rest[k];
          if k.kind == AVAILABLE {
            availableCount, available := availableCount + 1, available + rest[k];
          } else {
            freezeCount, freeze := freezeCount + 1, freeze + rest[k];
          }
        }
        KeysWithout(rest, asset, AVAILABLE, k);
        KeysWithout(rest, asset, FREEZE, k);
        if k in left {
          TotalWithout(left, asset, k);
          TotalOfWithout(left, asset, AVAILABLE, k);
          TotalOfWithout(left, asset, FREEZE, k);
        } else {
          assert left - {k} == left;
        }
        left := left - {k};
        rest := rest - {k};
      }
      TotalNone(asset);
    }
  }

  ghost function KeysOf(b: map<Key, Dec>, asset: Asset, kind: Kind): set<Key> {
    set k | k in b && k.asset == asset && k.kind == kind
  }

  lemma KeysWithout(b: map<Key, Dec>, asset: Asset, kind: Kind, k: Key)
    requires k in b
    ensures |KeysOf(b, asset, kind)| == |KeysOf(b - {k}, asset, kind)|
      + (if k.asset == asset && k.kind == kind then 1 else 0)
  {
    if k.asset == asset && k.kind == kind {
      assert KeysOf(b, asset, kind) == KeysOf(b - {k}, asset, kind) + {k};
    } else {
      assert KeysOf(b, asset, kind) == KeysOf(b - {k}, asset, kind);
    }
  }

  lemma TruncateZero(p: nat)
    ensures Truncate(0.0, p) == 0.0
  {
    OnGridZero(p);
    TruncateExact(0.0, p);
  }

  ghost function OfKind(b: Balance, kind: Kind): Balance {
    map k | k in b && k.kind == kind :: b[k]
  }

  ghost function TotalOf(b: Balance, asset: Asset, kind: Kind): Dec {
    Total(OfKind(b, kind), asset)
  }

  lemma TotalNone(asset: Asset)
    ensures Total(map[], asset) == TotalOf(map[], asset, AVAILABLE) == TotalOf(map[], asset, FREEZE) == 0.0
  {
    assert OfKind(map[], AVAILABLE) == map[] == OfKind(map[], FREEZE);
  }

  lemma TotalOfWithout(b: Balance, asset: Asset, kind: Kind, k: Key)
    requires k in b
    ensures TotalOf(b, asset, kind) == (if k.asset == asset && k.kind == kind then b[k] else 0.0)
      + TotalOf(b - {k}, asset, kind)
  {
    hide Total;
    if k.kind == kind {
      TotalWithout(OfKind(b, kind), asset, k);
      assert OfKind(b - {k}, kind) == OfKind(b, kind) - {k};
    } else {
      assert OfKind(b - {k}, kind) == OfKind(b, kind);
    }
  }
}
