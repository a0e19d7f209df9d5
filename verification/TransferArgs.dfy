/**
 * The argument lists of transfers: as the sender writes them, as they are shipped to another shard, and as the
 * destination half and the transfer parser read them.
 */
module TransferArgs {
  import opened Bytes
  import opened Wrappers
  import opened Ledger
  import opened Operations

  type Marshal = Token -> Bytes
  type Unmarshal = Bytes -> Result<Token>

  /** The codec is only assumed to read back what it wrote. */
  ghost predicate Inverse(marshal: Marshal, unmarshal: Unmarshal) {
    forall tok :: unmarshal(marshal(tok)) == Ok(tok)
  }

  // ---- multi-transfer: destination, count, triples, then the call that follows ----

  function MoveAt(args: seq<Bytes>, at: nat): Move
    requires at + 3 <= |args|
  {
    Move(args[at], ToUint64(args[at + 1]), ToNat(args[at + 2]))
  }

  function MovesFrom(args: seq<Bytes>, start: nat, n: nat): (moves: seq<Move>)
    requires start + 3 * n <= |args|
    ensures |moves| == n
    ensures forall i :: 0 <= i < n ==> moves[i] == MoveAt(args, start + 3 * i)
  {
    seq(n, i requires 0 <= i < n => MoveAt(args, start + 3 * i))
  }

  /** Destination, moves and following call of a sender's argument list; the count and the sizes are 64-bit words. */
  function MultiCallOf(args: seq<Bytes>): Result<(Address, seq<Move>, seq<Bytes>)> {
    if |args| < 4 then Err(ErrInvalidArguments) else
    var n := ToUint64(args[1]);
    if n == 0 then Err(ErrInvalidArguments)
    else if |args| < Wrap64(3 * n + 2) then Err(ErrInvalidArguments)
    else if 3 * n + 2 >= TWO64 then Err(PanicSliceTooLong)
    else Ok((args[0], MovesFrom(args, 2, n), args[3 * n + 2..]))
  }

  /** A nonce is shipped in its shortest form, zero as one zero byte. */
  function NonceArg(nonce: uint64): Bytes {
    if nonce > 0 then FromNat(nonce) else [0]
  }

  function ItemArgs(marshal: Marshal, item: Item): (args: seq<Bytes>)
    ensures |args| == 3
  {
    [item.token, NonceArg(item.nonce), if item.body.Payload? then marshal(item.body.data) else FromNat(item.body.value)]
  }

  function AllItemArgs(marshal: Marshal, items: seq<Item>): (args: seq<Bytes>)
    ensures |args| == 3 * |items|
  {
    if items == [] then [] else AllItemArgs(marshal, items[..|items| - 1]) + ItemArgs(marshal, items[|items| - 1])
  }

  function MultiArgs(marshal: Marshal, items: seq<Item>, extra: seq<Bytes>): seq<Bytes> {
    [FromNat(|items|)] + AllItemArgs(marshal, items) + extra
  }

  /** The loop that writes the shipped argument list. */
  method WriteMultiArgs(marshal: Marshal, items: seq<Item>, extra: seq<Bytes>) returns (args: seq<Bytes>)
    ensures args == MultiArgs(marshal, items, extra)
  {
    args := [FromNat(|items|)];
    for i := 0 to |items|
      invariant args == [FromNat(|items|)] + AllItemArgs(marshal, items[..i])
    {
      assert items[..i + 1][..i] == items[..i];
      args := args + ItemArgs(marshal, items[i]);
    }
    assert items[..|items|] == items;
    args := args + extra;
  }

  /** One arriving token: amounts and marshalled tokens are told apart by their length. */
  function ItemAt(unmarshal: Unmarshal, args: seq<Bytes>, at: nat): Result<Item>
    requires at + 3 <= |args|
  {
    var nonce := ToUint64(args[at + 1]);
    if nonce > 0 && |args[at + 2]| > MAX_OPT_VALUE_LENGTH then
      var tok :- unmarshal(args[at + 2]);
      Ok(Item(args[at], nonce, Payload(tok)))
    else Ok(Item(args[at], nonce, Amount(ToNat(args[at + 2]))))
  }

  function ItemsFrom(unmarshal: Unmarshal, args: seq<Bytes>, start: nat, n: nat): (r: Result<seq<Item>>)
    requires start + 3 * n <= |args|
    ensures r.Ok? ==> |r.value| == n
  {
    if n == 0 then Ok([])
    else
      var before := ItemsFrom(unmarshal, args, start, n - 1);
      if before.Err? then before else
      var item :- ItemAt(unmarshal, args, start + 3 * (n - 1));
      Ok(before.value + [item])
  }

  /** What the destination half takes from its arguments. */
  function MultiItemsOf(unmarshal: Unmarshal, args: seq<Bytes>): Result<(seq<Item>, seq<Bytes>)> {
    if |args| < 4 then Err(ErrInvalidArguments) else
    var n := ToUint64(args[0]);
    if n == 0 then Err(ErrInvalidArguments)
    else if |args| < Wrap64(3 * n + 1) then Err(ErrInvalidArguments)
    else if 3 * n + 1 >= TWO64 then Err(PanicSliceTooLong)
    else
      var items :- ItemsFrom(unmarshal, args, 1, n);
      Ok((items, args[3 * n + 1..]))
  }

  // ---- single NFT transfer: token, nonce, quantity, destination or payload, then the call that follows ----

  function NftCallOf(args: seq<Bytes>): Result<(Address, Move, seq<Bytes>)> {
    if |args| < 4 then Err(ErrInvalidArguments)
    else Ok((args[3], MoveAt(args, 0), args[4..]))
  }

  function NftArgs(marshal: Marshal, args: seq<Bytes>, item: Item): seq<Bytes>
    requires |args| >= 4
  {
    args[..3] + [if item.body.Payload? then marshal(item.body.data) else [0]] + args[4..]
  }

  function NftItemOf(unmarshal: Unmarshal, args: seq<Bytes>): Result<(Item, seq<Bytes>)> {
    if |args| < 4 then Err(ErrInvalidArguments) else
    var nonce := ToUint64(args[1]);
    if args[3] != [0] then
      var tok :- unmarshal(args[3]);
      Ok((Item(args[0], nonce, Payload(tok)), args[4..]))
    else Ok((Item(args[0], nonce, Amount(ToNat(args[2]))), args[4..]))
  }

  // ---- fungible transfer: token, amount, then the call that follows; shipped as it is ----

  function FungibleCallOf(args: seq<Bytes>): Result<(Bytes, nat, seq<Bytes>)> {
    if |args| < 2 then Err(ErrInvalidArguments) else Ok((args[0], ToNat(args[1]), args[2..]))
  }

  function FungibleItemsOf(args: seq<Bytes>): Result<(seq<Item>, seq<Bytes>)> {
    var call := FungibleCallOf(args);
    if call.Err? then Err(call.error) else Ok(([Item(call.value.0, 0, Amount(call.value.1))], call.value.2))
  }

  // ---- what the arguments say, position by position ----

  /** A sender's list: destination, count, triples, and the call behind the last triple. */
  lemma MultiCallFields(args: seq<Bytes>, dst: Address, moves: seq<Move>, extra: seq<Bytes>)
    requires MultiCallOf(args) == Ok((dst, moves, extra))
    ensures |args| == 2 + 3 * |moves| + |extra| && dst == args[0] && |moves| == ToNat(args[1]) % TWO64 > 0
    ensures forall i :: 0 <= i < |moves| ==>
              moves[i] == Move(args[2 + 3 * i], ToNat(args[2 + 3 * i + 1]) % TWO64, ToNat(args[2 + 3 * i + 2]))
    ensures forall j :: 0 <= j < |extra| ==> extra[j] == args[2 + 3 * |moves| + j]
  {
    hide ToNat;
    NoWrap(3 * |moves| + 2);
  }

  // ---- the shipped form is read back ----

  /** The forms that the length rule tells apart. */
  predicate Distinguishable(marshal: Marshal, item: Item) {
    if item.nonce == 0 then item.body.Amount?
    else if item.body.Payload? then |marshal(item.body.data)| > MAX_OPT_VALUE_LENGTH
    else |FromNat(item.body.value)| <= MAX_OPT_VALUE_LENGTH
  }

  lemma NonceArgRoundTrip(nonce: uint64)
    ensures ToUint64(NonceArg(nonce)) == nonce
  {
    if nonce == 0 {
      assert ToNat([0]) == 256 * ToNat([]) + 0;
    } else {
      Uint64RoundTrip(nonce);
    }
  }

  lemma AllItemArgsSnoc(marshal: Marshal, items: seq<Item>)
    requires items != []
    ensures AllItemArgs(marshal, items) == AllItemArgs(marshal, items[..|items| - 1]) + ItemArgs(marshal, items[|items| - 1])
  {
  }

  /** The triple of every item stands at its place. */
  lemma {:induction false} ItemArgsAt(marshal: Marshal, items: seq<Item>, i: nat)
    requires i < |items|
    ensures AllItemArgs(marshal, items)[3 * i..3 * i + 3] == ItemArgs(marshal, items[i])
  {
    hide ItemArgs, AllItemArgs;
    AllItemArgsSnoc(marshal, items);
    var last := |items| - 1;
    var all, before := AllItemArgs(marshal, items), AllItemArgs(marshal, items[..last]);
    if i < last {
      ItemArgsAt(marshal, items[..last], i);
      assert all[3 * i..3 * i + 3] == before[3 * i..3 * i + 3];
    } else {
      assert all[3 * i..3 * i + 3] == ItemArgs(marshal, items[last]);
    }
  }

  lemma ShippedTriple(marshal: Marshal, items: seq<Item>, extra: seq<Bytes>, i: nat)
    requires i < |items|
    ensures var args := MultiArgs(marshal, items, extra);
            |args| == 3 * |items| + 1 + |extra| && args[3 * i + 1..3 * i + 4] == ItemArgs(marshal, items[i])
  {
    hide ItemArgs, AllItemArgs;
    ItemArgsAt(marshal, items, i);
    var args, all := MultiArgs(marshal, items, extra), AllItemArgs(marshal, items);
    assert args[3 * i + 1..3 * i + 4] == all[3 * i..3 * i + 3];
  }

  /** A shipped list, position by position: count, then token, nonce and amount or payload of each item, then the call. */
  lemma ShippedFields(marshal: Marshal, items: seq<Item>, extra: seq<Bytes>, i: nat)
    requires i < |items|
    ensures var args, item := MultiArgs(marshal, items, extra), items[i];
      && |args| == 3 * |items| + 1 + |extra| && ToNat(args[0]) == |items|
      && args[3 * i + 1] == item.token && ToUint64(args[3 * i + 2]) == item.nonce
      && (item.body.Payload? ==> args[3 * i + 3] == marshal(item.body.data))
      && (item.body.Amount? ==> ToNat(args[3 * i + 3]) == item.body.value)
      && args[3 * |items| + 1..] == extra
  {
    var args, item := MultiArgs(marshal, items, extra), items[i];
    ShippedTriple(marshal, items, extra, i);
    LengthOfMultiArgs(marshal, items, extra);
    var triple := args[3 * i + 1..3 * i + 4];
    assert args[3 * i + 1] == triple[0] && args[3 * i + 2] == triple[1] && args[3 * i + 3] == triple[2];
    hide MultiArgs;
    NonceArgRoundTrip(item.nonce);
  }

  lemma ShippedItem(marshal: Marshal, unmarshal: Unmarshal, items: seq<Item>, extra: seq<Bytes>, i: nat)
    requires i < |items| && Inverse(marshal, unmarshal)
    ensures var args := MultiArgs(marshal, items, extra);
            |args| == 3 * |items| + 1 + |extra| &&
            (ItemAt(unmarshal, args, 3 * i + 1) == Ok(items[i]) <==> Distinguishable(marshal, items[i]))
  {
    var args, item := MultiArgs(marshal, items, extra), items[i];
    ShippedTriple(marshal, items, extra, i);
    var triple := args[3 * i + 1..3 * i + 4];
    assert args[3 * i + 1] == triple[0] && args[3 * i + 2] == triple[1] && args[3 * i + 3] == triple[2];
    NonceArgRoundTrip(item.nonce);
    if item.body.Payload? {
      assert unmarshal(marshal(item.body.data)) == Ok(item.body.data);
    }
  }

  lemma {:induction false} ShippedItems(marshal: Marshal, unmarshal: Unmarshal, items: seq<Item>, extra: seq<Bytes>, n: nat)
    requires Inverse(marshal, unmarshal) && n <= |items|
    ensures var args := MultiArgs(marshal, items, extra);
            |args| == 3 * |items| + 1 + |extra| &&
            (ItemsFrom(unmarshal, args, 1, n) == Ok(items[..n])
             <==> forall i :: 0 <= i < n ==> Distinguishable(marshal, items[i]))
  {
    hide Distinguishable, ItemAt, Inverse, MultiArgs;
    if n == 0 {
      LengthOfMultiArgs(marshal, items, extra);
    } else {
      ShippedItems(marshal, unmarshal, items, extra, n - 1);
      ShippedItem(marshal, unmarshal, items, extra, n - 1);
      var args := MultiArgs(marshal, items, extra);
      assert items[..n] == items[..n - 1] + [items[n - 1]];
      var before, item := ItemsFrom(unmarshal, args, 1, n - 1), ItemAt(unmarshal, args, 3 * n - 2);
      if before.Ok? && item.Ok? {
        assert (before.value + [item.value])[..n - 1] == before.value && items[..n][..n - 1] == items[..n - 1];
        assert (before.value + [item.value])[n - 1] == item.value;
      }
    }
  }

  lemma LengthOfMultiArgs(marshal: Marshal, items: seq<Item>, extra: seq<Bytes>)
    ensures |MultiArgs(marshal, items, extra)| == 3 * |items| + 1 + |extra|
    ensures MultiArgs(marshal, items, extra)[0] == FromNat(|items|)
    ensures MultiArgs(marshal, items, extra)[3 * |items| + 1..] == extra
  {
  }

  /** The destination half gets back exactly what was shipped if and only if the length rule tells every item apart. */
  lemma DestinationReadsItems(marshal: Marshal, unmarshal: Unmarshal, items: seq<Item>, extra: seq<Bytes>)
    requires Inverse(marshal, unmarshal) && items != [] && 3 * |items| + 1 < TWO64
    ensures MultiItemsOf(unmarshal, MultiArgs(marshal, items, extra)) == Ok((items, extra))
            <==> forall i :: 0 <= i < |items| ==> Distinguishable(marshal, items[i])
  {
    hide Distinguishable, MultiArgs, Inverse;
    LengthOfMultiArgs(marshal, items, extra);
    ShippedItems(marshal, unmarshal, items, extra, |items|);
    Uint64RoundTrip(|items|);
    assert items[..|items|] == items;
  }

  /** The single transfer has a marker instead of the length rule; only a token marshalled to that marker is misread. */
  lemma DestinationReadsNft(marshal: Marshal, unmarshal: Unmarshal, args: seq<Bytes>, item: Item)
    requires Inverse(marshal, unmarshal) && NftCallOf(args).Ok?
    requires item.token == args[0] && item.nonce == ToUint64(args[1])
    requires item.body.Amount? ==> item.body.value == ToNat(args[2])
    ensures NftItemOf(unmarshal, NftArgs(marshal, args, item)) == Ok((item, args[4..]))
            <==> (item.body.Payload? ==> marshal(item.body.data) != [0])
  {
    var shipped := NftArgs(marshal, args, item);
    assert shipped[4..] == args[4..];
    if item.body.Payload? {
      assert unmarshal(marshal(item.body.data)) == Ok(item.body.data);
    }
  }
}
