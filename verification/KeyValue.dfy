/** Writing key-value pairs into the caller's own storage. */
module KeyValue {
  import opened Bytes
  import opened Wrappers

  /** A key without value reads as the empty value. */
  type Storage = map<Bytes, Bytes>

  function ValueAt(data: Storage, key: Bytes): Bytes {
    if key in data then data[key] else []
  }

  datatype Prices = Prices(base: uint64, persistPerByte: uint64, storePerByte: uint64)

  /** Keys that only the protocol writes start with `prefix`. */
  predicate IsProtected(prefix: Bytes, key: Bytes) {
    |key| >= |prefix| && key[..|prefix|] == prefix
  }

  function PersistCost(prices: Prices, key: Bytes, value: Bytes): nat {
    (|value| + |key|) * prices.persistPerByte
  }

  /** Only the bytes by which a value grows are stored anew. */
  function StoreCost(prices: Prices, present: Bytes, value: Bytes): nat {
    if |present| < |value| then prices.storePerByte * (|value| - |present|) else 0
  }

  /** One pair: the bytes that the value grows by cost extra, and a value that does not change is not written. */
  function WritePair(prefix: Bytes, prices: Prices, gasProvided: uint64, data: Storage, used: uint64, key: Bytes, value: Bytes)
    : Result<(Storage, uint64)>
  {
    var persisted := Wrap64(used + PersistCost(prices, key, value));
    if IsProtected(prefix, key) then Err(ErrOperationNotPermitted)
    else
      var present := ValueAt(data, key);
      if present == value then Ok((data, persisted))
      else
        var stored := Wrap64(persisted + StoreCost(prices, present, value));
        if gasProvided < stored then Err(ErrNotEnoughGas) else Ok((data[key := value], stored))
  }

  /** All pairs in order, with the gas that they use. */
  function WriteAll(prefix: Bytes, prices: Prices, gasProvided: uint64, data: Storage, pairs: seq<(Bytes, Bytes)>)
    : Result<(Storage, uint64)>
  {
    if pairs == [] then Ok((data, prices.base))
    else
      var last := pairs[|pairs| - 1];
      var before := WriteAll(prefix, prices, gasProvided, data, pairs[..|pairs| - 1]);
      if before.Err? then before
      else WritePair(prefix, prices, gasProvided, before.value.0, before.value.1, last.0, last.1)
  }

  function Pairs(args: seq<Bytes>): (pairs: seq<(Bytes, Bytes)>)
    ensures |pairs| == |args| / 2
  {
    seq(|args| / 2, i requires 0 <= i < |args| / 2 => (args[2 * i], args[2 * i + 1]))
  }

  lemma {:induction false} WriteAllStops(prefix: Bytes, prices: Prices, gasProvided: uint64, data: Storage,
                                         pairs: seq<(Bytes, Bytes)>, i: nat)
    requires i <= |pairs| && WriteAll(prefix, prices, gasProvided, data, pairs[..i]).Err?
    ensures WriteAll(prefix, prices, gasProvided, data, pairs) == WriteAll(prefix, prices, gasProvided, data, pairs[..i])
  {
    hide WritePair;
    if i == |pairs| {
      assert pairs[..i] == pairs;
    } else {
      assert pairs[..|pairs| - 1][..i] == pairs[..i];
      WriteAllStops(prefix, prices, gasProvided, data, pairs[..|pairs| - 1], i);
    }
  }

  /** The protected keys are those that continue the prefix. */
  lemma ProtectedExactly(prefix: Bytes, key: Bytes)
    ensures IsProtected(prefix, key) <==> exists rest: Bytes :: key == prefix + rest
  {
    if IsProtected(prefix, key) {
      assert key == prefix + key[|prefix|..];
    }
  }

  lemma WriteNothing(prefix: Bytes, prices: Prices, gasProvided: uint64, data: Storage, pairs: seq<(Bytes, Bytes)>)
    ensures WriteAll(prefix, prices, gasProvided, data, pairs[..0]) == Ok((data, prices.base))
  {
  }

  lemma OnePairMore(prefix: Bytes, prices: Prices, gasProvided: uint64, data: Storage, pairs: seq<(Bytes, Bytes)>, i: nat)
    requires i < |pairs| && WriteAll(prefix, prices, gasProvided, data, pairs[..i]).Ok?
    ensures var (before, used) := WriteAll(prefix, prices, gasProvided, data, pairs[..i]).value;
            WriteAll(prefix, prices, gasProvided, data, pairs[..i + 1])
            == WritePair(prefix, prices, gasProvided, before, used, pairs[i].0, pairs[i].1)
  {
    hide WritePair;
    assert pairs[..i + 1][..i] == pairs[..i];
  }

  class AccountStorage {
    const protectedPrefix: Bytes
    const prices: Prices
    var data: Storage

    constructor (protectedPrefix: Bytes, prices: Prices)
      ensures data == map[] && this.protectedPrefix == protectedPrefix && this.prices == prices
    {
      this.protectedPrefix, this.prices, data := protectedPrefix, prices, map[];
    }

    /** Answers with the gas that is left; after an error the pairs before the faulty one stay written. */
    method SaveKeyValues(isOwner: bool, isContract: bool, gasProvided: uint64, args: seq<Bytes>) returns (r: Result<uint64>)
      modifies this`data
      ensures |args| < 2 || |args| % 2 != 0 ==> r == Err(ErrInvalidArguments) && data == old(data)
      ensures |args| >= 2 && |args| % 2 == 0 && (!isOwner || isContract) ==> r == Err(ErrOperationNotPermitted) && data == old(data)
      ensures |args| >= 2 && |args| % 2 == 0 && isOwner && !isContract ==>
                match WriteAll(protectedPrefix, prices, gasProvided, old(data), Pairs(args))
                case Ok((after, used)) => data == after && r == Ok(Wrap64(gasProvided - used))
                case Err(error) => r == Err(error)
      ensures forall key :: IsProtected(protectedPrefix, key) ==> ValueAt(data, key) == ValueAt(old(data), key)
    {
      hide WriteAll, Wrap64, IsProtected, PersistCost;
      if |args| < 2 || |args| % 2 != 0 {
        return Err(ErrInvalidArguments);
      }
      if !isOwner || isContract {
        return Err(ErrOperationNotPermitted);
      }
      ghost var pairs := Pairs(args);
      WriteNothing(protectedPrefix, prices, gasProvided, data, pairs);
      var useGas := prices.base;
      var i := 0;
      while i < |args|
        invariant 0 <= i <= |args| && i % 2 == 0
        invariant WriteAll(protectedPrefix, prices, gasProvided, old(data), pairs[..i / 2]) == Ok((data, useGas))
        invariant forall key :: IsProtected(protectedPrefix, key) ==> ValueAt(data, key) == ValueAt(old(data), key)
      {
        var key, value := args[i], args[i + 1];
        assert pairs[i / 2] == (key, value);
        OnePairMore(protectedPrefix, prices, gasProvided, old(data), pairs, i / 2);
        useGas := Wrap64(useGas + PersistCost(prices, key, value));
        if IsProtected(protectedPrefix, key) {
          WriteAllStops(protectedPrefix, prices, gasProvided, old(data), pairs, i / 2 + 1);
          return Err(ErrOperationNotPermitted);
        }
        var oldValue := ValueAt(data, key);
        if oldValue != value {
          var lengthChange := 0;
          if |oldValue| < |value| {
            lengthChange := |value| - |oldValue|;
          }
          useGas := Wrap64(useGas + prices.storePerByte * lengthChange);
          if gasProvided < useGas {
            WriteAllStops(protectedPrefix, prices, gasProvided, old(data), pairs, i / 2 + 1);
            return Err(ErrNotEnoughGas);
          }
          data := data[key := value];
        }
        i := i + 2;
      }
      assert pairs[..i / 2] == pairs;
      return Ok(Wrap64(gasProvided - useGas));
    }
  }

  // ---- what a successful call leaves behind ----

  /** The value of the last pair for a key, or the present value if there is none. */
  function LastValue(data: Storage, pairs: seq<(Bytes, Bytes)>, key: Bytes): Bytes {
    if pairs == [] then ValueAt(data, key)
    else if pairs[|pairs| - 1].0 == key then pairs[|pairs| - 1].1
    else LastValue(data, pairs[..|pairs| - 1], key)
  }

  /** After success every key has the value of its last pair, even though pairs that change nothing are not written. */
  lemma {:induction false} StorageIsTheFold(prefix: Bytes, prices: Prices, gasProvided: uint64, data: Storage,
                                            pairs: seq<(Bytes, Bytes)>, after: Storage, used: uint64, key: Bytes)
    requires WriteAll(prefix, prices, gasProvided, data, pairs) == Ok((after, used))
    ensures ValueAt(after, key) == LastValue(data, pairs, key)
    ensures forall pair <- pairs :: !IsProtected(prefix, pair.0)
  {
    if pairs != [] {
      var init := pairs[..|pairs| - 1];
      var (before, spent) := WriteAll(prefix, prices, gasProvided, data, init).value;
      StorageIsTheFold(prefix, prices, gasProvided, data, init, before, spent, key);
      assert pairs == init + [pairs[|pairs| - 1]];
    }
  }

  /** A list that names a protected key never succeeds, wherever the key stands. */
  lemma {:induction false} ProtectedKeyFails(prefix: Bytes, prices: Prices, gasProvided: uint64, data: Storage,
                                             pairs: seq<(Bytes, Bytes)>, i: nat)
    requires i < |pairs| && IsProtected(prefix, pairs[i].0)
    ensures WriteAll(prefix, prices, gasProvided, data, pairs).Err?
  {
    var result := WriteAll(prefix, prices, gasProvided, data, pairs);
    var pair := pairs[i];
    assert pair in pairs;
    if result.Ok? {
      StorageIsTheFold(prefix, prices, gasProvided, data, pairs, result.value.0, result.value.1, []);
    }
  }

  // ---- what a list costs, and when it is refused ----

  /** The price of a list: its bytes, and the bytes by which each value grows over the one that its pair finds. */
  function Price(prices: Prices, data: Storage, pairs: seq<(Bytes, Bytes)>): nat {
    if pairs == [] then prices.base
    else
      var init, last := pairs[..|pairs| - 1], pairs[|pairs| - 1];
      Price(prices, data, init) + PersistCost(prices, last.0, last.1) + StoreCost(prices, LastValue(data, init, last.0), last.1)
  }

  /** The pair at `i` changes the value that it finds. */
  predicate Changes(data: Storage, pairs: seq<(Bytes, Bytes)>, i: nat)
    requires i < |pairs|
  {
    LastValue(data, pairs[..i], pairs[i].0) != pairs[i].1
  }

  /** A pair passes if its key is not protected and, when it changes a value, the list up to it is paid for. */
  predicate Passes(prefix: Bytes, prices: Prices, gasProvided: uint64, data: Storage, pairs: seq<(Bytes, Bytes)>, i: nat)
    requires i < |pairs|
  {
    !IsProtected(prefix, pairs[i].0) && (Changes(data, pairs, i) ==> Price(prices, data, pairs[..i + 1]) <= gasProvided)
  }

  predicate AllPass(prefix: Bytes, prices: Prices, gasProvided: uint64, data: Storage, pairs: seq<(Bytes, Bytes)>) {
    forall i :: 0 <= i < |pairs| ==> Passes(prefix, prices, gasProvided, data, pairs, i)
  }

  lemma PassesInPrefix(prefix: Bytes, prices: Prices, gasProvided: uint64, data: Storage, pairs: seq<(Bytes, Bytes)>, n: nat, i: nat)
    requires i < n <= |pairs|
    ensures Passes(prefix, prices, gasProvided, data, pairs[..n], i) == Passes(prefix, prices, gasProvided, data, pairs, i)
  {
    assert pairs[..n][..i] == pairs[..i] && pairs[..n][..i + 1] == pairs[..i + 1];
  }

  lemma AllPassSnoc(prefix: Bytes, prices: Prices, gasProvided: uint64, data: Storage, pairs: seq<(Bytes, Bytes)>)
    requires pairs != []
    ensures var last := |pairs| - 1;
            AllPass(prefix, prices, gasProvided, data, pairs)
            <==> AllPass(prefix, prices, gasProvided, data, pairs[..last]) && Passes(prefix, prices, gasProvided, data, pairs, last)
  {
    hide Passes;
    var last := |pairs| - 1;
    forall i | 0 <= i < last
      ensures Passes(prefix, prices, gasProvided, data, pairs[..last], i) == Passes(prefix, prices, gasProvided, data, pairs, i)
    {
      PassesInPrefix(prefix, prices, gasProvided, data, pairs, last, i);
    }
  }

  lemma PairCosts(prefix: Bytes, prices: Prices, gasProvided: uint64, data: Storage, used: uint64, key: Bytes, value: Bytes,
                  present: Bytes)
    requires present == ValueAt(data, key)
    requires used + PersistCost(prices, key, value) + StoreCost(prices, present, value) < TWO64
    ensures var whole := used + PersistCost(prices, key, value) + StoreCost(prices, present, value);
      var r := WritePair(prefix, prices, gasProvided, data, used, key, value);
      && (r.Ok? <==> !IsProtected(prefix, key) && (present != value ==> whole <= gasProvided))
      && (r.Ok? ==> r.value.1 == whole)
      && (r.Err? ==> r.error == if IsProtected(prefix, key) then ErrOperationNotPermitted else ErrNotEnoughGas)
  {
    hide PersistCost, IsProtected;
    NoWrap(used + PersistCost(prices, key, value));
    NoWrap(used + PersistCost(prices, key, value) + StoreCost(prices, present, value));
  }

  /** A list is accepted exactly when all its pairs pass, and then it uses exactly its price. */
  lemma {:induction false} AcceptedExactly(prefix: Bytes, prices: Prices, gasProvided: uint64, data: Storage, pairs: seq<(Bytes, Bytes)>)
    requires Price(prices, data, pairs) < TWO64
    ensures WriteAll(prefix, prices, gasProvided, data, pairs).Ok? <==> AllPass(prefix, prices, gasProvided, data, pairs)
    ensures WriteAll(prefix, prices, gasProvided, data, pairs).Ok? ==>
              WriteAll(prefix, prices, gasProvided, data, pairs).value.1 == Price(prices, data, pairs)
  {
    if pairs != [] {
      hide WritePair, LastValue, PersistCost, StoreCost, IsProtected, AllPass;
      var init, last := pairs[..|pairs| - 1], pairs[|pairs| - 1];
      AcceptedExactly(prefix, prices, gasProvided, data, init);
      AllPassSnoc(prefix, prices, gasProvided, data, pairs);
      assert pairs[..|pairs|] == pairs;
      var before := WriteAll(prefix, prices, gasProvided, data, init);
      if before.Ok? {
        StorageIsTheFold(prefix, prices, gasProvided, data, init, before.value.0, before.value.1, last.0);
        PairCosts(prefix, prices, gasProvided, before.value.0, before.value.1, last.0, last.1, LastValue(data, init, last.0));
      }
    } else {
      assert AllPass(prefix, prices, gasProvided, data, pairs);
    }
  }

  /** It fails with the error of its first pair that does not pass: a protected key, or too little gas for a changed value. */
  lemma {:induction false} RefusedExactly(prefix: Bytes, prices: Prices, gasProvided: uint64, data: Storage, pairs: seq<(Bytes, Bytes)>, i: nat)
    requires i < |pairs| && Price(prices, data, pairs[..i + 1]) < TWO64
    requires !Passes(prefix, prices, gasProvided, data, pairs, i)
    requires forall j :: 0 <= j < i ==> Passes(prefix, prices, gasProvided, data, pairs, j)
    ensures WriteAll(prefix, prices, gasProvided, data, pairs)
            == Err(if IsProtected(prefix, pairs[i].0) then ErrOperationNotPermitted else ErrNotEnoughGas)
  {
    hide WritePair, LastValue, PersistCost, StoreCost, IsProtected, WriteAll;
    var init, pair := pairs[..i], pairs[i];
    assert pairs[..i + 1][..i] == init;
    forall j | 0 <= j < i ensures Passes(prefix, prices, gasProvided, data, init, j) {
      PassesInPrefix(prefix, prices, gasProvided, data, pairs, i, j);
    }
    AcceptedExactly(prefix, prices, gasProvided, data, init);
    var (before, used) := WriteAll(prefix, prices, gasProvided, data, init).value;
    StorageIsTheFold(prefix, prices, gasProvided, data, init, before, used, pair.0);
    PairCosts(prefix, prices, gasProvided, before, used, pair.0, pair.1, LastValue(data, init, pair.0));
    OnePairMore(prefix, prices, gasProvided, data, pairs, i);
    WriteAllStops(prefix, prices, gasProvided, data, pairs, i + 1);
  }

  /**
   * What a successful call leaves is the gas provided less its price exactly when the price was provided. It may not have
   * been: pairs that change nothing are added to the price but not checked against the gas.
   */
  lemma GasLeftIsExact(prefix: Bytes, prices: Prices, gasProvided: uint64, data: Storage, pairs: seq<(Bytes, Bytes)>,
                       after: Storage, used: uint64)
    requires Price(prices, data, pairs) < TWO64 && WriteAll(prefix, prices, gasProvided, data, pairs) == Ok((after, used))
    ensures Wrap64(gasProvided - used) == gasProvided - Price(prices, data, pairs) <==> Price(prices, data, pairs) <= gasProvided
  {
    hide WriteAll, Price;
    AcceptedExactly(prefix, prices, gasProvided, data, pairs);
    if used <= gasProvided {
      NoWrap(gasProvided - used);
    }
  }

  lemma {:induction false} UnchangedValue(data: Storage, pairs: seq<(Bytes, Bytes)>, key: Bytes)
    requires forall pair <- pairs :: ValueAt(data, pair.0) == pair.1
    ensures LastValue(data, pairs, key) == ValueAt(data, key)
  {
    if pairs != [] {
      assert pairs[|pairs| - 1] in pairs;
      UnchangedValue(data, pairs[..|pairs| - 1], key);
    }
  }

  /** In particular, a list that changes no value is accepted whatever gas is provided. */
  lemma UnchangedPairsAreNotChecked(prefix: Bytes, prices: Prices, gasProvided: uint64, data: Storage, pairs: seq<(Bytes, Bytes)>)
    requires forall pair <- pairs :: !IsProtected(prefix, pair.0) && ValueAt(data, pair.0) == pair.1
    requires Price(prices, data, pairs) < TWO64
    ensures WriteAll(prefix, prices, gasProvided, data, pairs).Ok?
  {
    hide WriteAll, Price, IsProtected;
    forall i | 0 <= i < |pairs| ensures Passes(prefix, prices, gasProvided, data, pairs, i) {
      assert pairs[i] in pairs && forall pair <- pairs[..i] :: pair in pairs;
      UnchangedValue(data, pairs[..i], pairs[i].0);
    }
    AcceptedExactly(prefix, prices, gasProvided, data, pairs);
  }

  /** One pair more costs its bytes, and the bytes by which its value grows; a shrinking value frees nothing. */
  lemma PriceOfPair(prices: Prices, data: Storage, pairs: seq<(Bytes, Bytes)>, key: Bytes, value: Bytes)
    ensures var present := LastValue(data, pairs, key);
            Price(prices, data, pairs + [(key, value)]) == Price(prices, data, pairs)
              + (|key| + |value|) * prices.persistPerByte
              + (if |value| > |present| then (|value| - |present|) * prices.storePerByte else 0)
  {
    hide LastValue;
    assert (pairs + [(key, value)])[..|pairs|] == pairs;
  }

  /** Two pairs, gas 2, price 7: the second pair changes nothing, the call succeeds and leaves almost 2^64 gas. */
  lemma GasIsLeftOver()
    ensures var prices, data := Prices(0, 1, 0), map[[7] := [1, 2, 3, 4]];
            var pairs := [([5], [6]), ([7], [1, 2, 3, 4])];
            && Price(prices, data, pairs) == 7
            && WriteAll([9], prices, 2, data, pairs) == Ok((data[[5] := [6]], 7)) && Wrap64(2 - 7) == TWO64 - 5
  {
    var prices, data := Prices(0, 1, 0), map[[7] := [1, 2, 3, 4]];
    var one, pairs := [([5], [6])], [([5], [6]), ([7], [1, 2, 3, 4])];
    assert pairs[..1] == one && one[..0] == [];
    assert [5] != [7] by { assert [5][0] != [7][0]; }
    assert !IsProtected([9], [5]) && !IsProtected([9], [7]);
    assert Price(prices, data, one) == 2;
    assert WriteAll([9], prices, 2, data, one) == Ok((data[[5] := [6]], 2));
  }
}
