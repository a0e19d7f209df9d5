/** The amount of one key held in a shard, as a sum over its finitely many stored tokens. */
module Totals {
  import opened Bytes
  import opened Ledger

  type Holding = (Address, Bytes)

  ghost function Amount(x: Holding, tok: Token, key: Bytes): int {
    if x.1 == key then tok.value else 0
  }

  ghost function Total(users: Users, key: Bytes): int
    decreases |users|
  {
    if users == map[] then 0
    else
      var x :| x in users;
      assert (users - {x}).Keys == users.Keys - {x};
      Amount(x, users[x], key) + Total(users - {x}, key)
  }

  lemma CardinalityOfRemoval(users: Users, x: Holding)
    requires x in users
    ensures |users - {x}| == |users| - 1
  {
    assert (users - {x}).Keys == users.Keys - {x};
    assert |users.Keys| == |users| && |(users - {x}).Keys| == |users - {x}|;
  }

  /** Any holding can be the one counted first. */
  lemma {:induction false} TotalSplit(users: Users, x: Holding, key: Bytes)
    requires x in users
    ensures Total(users, key) == Amount(x, users[x], key) + Total(users - {x}, key)
    decreases |users|
  {
    var y :| y in users && Total(users, key) == Amount(y, users[y], key) + Total(users - {y}, key);
    if x != y {
      CardinalityOfRemoval(users, x);
      CardinalityOfRemoval(users, y);
      TotalSplit(users - {y}, x, key);
      TotalSplit(users - {x}, y, key);
      assert users - {y} - {x} == users - {x} - {y};
    }
  }

  lemma TotalRemove(users: Users, a: Address, key: Bytes)
    ensures Total(Remove(users, a, key), key) == Total(users, key) - Balance(users, a, key)
    ensures forall k :: k != key ==> Total(Remove(users, a, key), k) == Total(users, k)
  {
    if (a, key) in users {
      forall k {
        TotalSplit(users, (a, key), k);
      }
    } else {
      assert users - {(a, key)} == users;
    }
  }

  lemma TotalPut(users: Users, a: Address, key: Bytes, tok: Token)
    ensures Total(Put(users, a, key, tok), key) == Total(users, key) - Balance(users, a, key) + tok.value
    ensures forall k :: k != key ==> Total(Put(users, a, key, tok), k) == Total(users, k)
  {
    TotalRemove(users, a, key);
    var after := Put(users, a, key, tok);
    assert after - {(a, key)} == Remove(users, a, key);
    forall k {
      TotalSplit(after, (a, key), k);
    }
  }

  ghost predicate NonNegative(users: Users) {
    forall x :: x in users ==> users[x].value >= 0
  }

  /** A sum of non-negative amounts bounds each of them. */
  lemma {:induction false} TotalBounds(users: Users, a: Address, key: Bytes)
    requires NonNegative(users)
    ensures 0 <= Balance(users, a, key) <= Total(users, key)
    decreases |users|
  {
    if users != map[] {
      if (a, key) in users {
        TotalSplit(users, (a, key), key);
        CardinalityOfRemoval(users, (a, key));
        TotalBounds(users - {(a, key)}, a, key);
      } else {
        var x :| x in users;
        TotalSplit(users, x, key);
        CardinalityOfRemoval(users, x);
        TotalBounds(users - {x}, a, key);
      }
    }
  }

  /** If nobody holds a positive amount, the sum is zero. */
  lemma {:induction false} TotalZero(users: Users, key: Bytes)
    requires forall x :: x in users && x.1 == key ==> users[x].value == 0
    ensures Total(users, key) == 0
    decreases |users|
  {
    if users != map[] {
      var x :| x in users;
      TotalSplit(users, x, key);
      CardinalityOfRemoval(users, x);
      TotalZero(users - {x}, key);
    }
  }
}
