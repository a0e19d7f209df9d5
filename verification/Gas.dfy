/** Gas accounting of the transfers: nothing is created, and what disappears is exactly the cost of the call. */
module Gas {
  import opened Bytes
  import opened Wrappers
  import opened Ledger
  import opened Operations
  import opened World
  import opened Conservation

  /** What copying the tokens of a message costs; an item without metadata is free. */
  function CopyCosts(c: Config, items: seq<Item>): nat {
    if items == [] then 0
    else
      var last := items[|items| - 1];
      CopyCosts(c, items[..|items| - 1]) + if last.body.Payload? then CopyCost(c, last.body.data) else 0
  }

  function Left(out: Output): nat {
    out.gasRemaining + out.gasEmitted
  }

  /** A move that is copied for the price of its bytes even when its destination is in the sender's shard. */
  predicate AlwaysCopied(c: Config, mv: Move) {
    mv.nonce > 0 && (!c.flags.saveToSystem || mv.value == 1 || |FromNat(mv.value)| > MAX_OPT_VALUE_LENGTH)
  }

  lemma {:induction false} ShipAllGas(c: Config, sys: Sys, dst: Address, moves: seq<Move>, tokens: seq<Token>, gas: nat,
                                      after: Sys, items: seq<Item>, left: nat)
    requires |moves| == |tokens|
    requires ShipAll(c, sys, dst, moves, tokens, gas) == Ok((after, items, left))
    ensures left + CopyCosts(c, items) == gas
  {
    hide WasAlreadySent, CopyCost, FromNat;
    if moves != [] {
      var last := |moves| - 1;
      var (before, some, rest) := ShipAll(c, sys, dst, moves[..last], tokens[..last], gas).value;
      ShipAllGas(c, sys, dst, moves[..last], tokens[..last], gas, before, some, rest);
      assert items[..last] == some;
    }
  }

  /** Inside one shard only the moves that are always copied cost more than the call itself. */
  lemma {:induction false} ShipHereIsFree(c: Config, sys: Sys, dst: Address, moves: seq<Move>, tokens: seq<Token>, gas: nat,
                                          after: Sys, items: seq<Item>, left: nat)
    requires |moves| == |tokens| && ToShard(c, dst)
    requires forall i :: 0 <= i < |moves| ==> !AlwaysCopied(c, moves[i])
    requires ShipAll(c, sys, dst, moves, tokens, gas) == Ok((after, items, left))
    ensures left == gas
  {
    hide CopyCost, FromNat;
    if moves != [] {
      var last := |moves| - 1;
      var (before, some, rest) := ShipAll(c, sys, dst, moves[..last], tokens[..last], gas).value;
      ShipHereIsFree(c, sys, dst, moves[..last], tokens[..last], gas, before, some, rest);
      assert !AlwaysCopied(c, moves[last]);
    }
  }

  /**
   * On the sender's shard a multi-transfer loses its cost and the cost of copying the tokens it ships; for a
   * destination in the same shard never more is lost than is provided, and only its cost unless a move is copied.
   */
  lemma MultiSendGas(c: Config, sh: Shard, inp: Input, dst: Address, moves: seq<Move>, extra: seq<Bytes>,
                     after: Shard, out: Output)
    requires MultiSend(c, sh, inp, dst, moves, extra) == Ok((after, out))
    ensures !ToShard(c, dst) ==>
              && |out.sent| == 1
              && Left(out) + CopyCosts(c, out.sent[0].items) + MultiCost(c, |moves|) == inp.gasProvided
    ensures Left(out) + MultiCost(c, |moves|) <= inp.gasProvided
    ensures ToShard(c, dst) && (forall i :: 0 <= i < |moves| ==> !AlwaysCopied(c, moves[i])) ==>
              Left(out) + MultiCost(c, |moves|) == inp.gasProvided
    ensures out.gasRemaining == 0 || out.gasEmitted == 0
    ensures out.gasEmitted > 0 ==> IsSCCallAfter(c, inp, dst, extra)
  {
    hide SendAll, ShipAll, CheckPayable, IsSCCallAfter, CheckDestination, AlwaysCopied;
    var (moved, tokens) := SendAll(c, sh, inp.caller, dst, moves, inp.retErr).value;
    var gas := inp.gasProvided - MultiCost(c, |moves|);
    var (sys, items, left) := ShipAll(c, moved.sys, dst, moves, tokens, gas).value;
    ShipAllGas(c, moved.sys, dst, moves, tokens, gas, sys, items, left);
    if ToShard(c, dst) && forall i :: 0 <= i < |moves| ==> !AlwaysCopied(c, moves[i]) {
      ShipHereIsFree(c, moved.sys, dst, moves, tokens, gas, sys, items, left);
    }
  }

  lemma NftSendGas(c: Config, sh: Shard, inp: Input, dst: Address, mv: Move, extra: seq<Bytes>, after: Shard, out: Output)
    requires NftSend(c, sh, inp, dst, mv, extra) == Ok((after, out))
    ensures !ToShard(c, dst) ==>
              && |out.sent| == 1
              && Left(out) + CopyCosts(c, out.sent[0].items) + c.costs.nftTransfer == inp.gasProvided
    ensures Left(out) + c.costs.nftTransfer <= inp.gasProvided
    ensures out.gasRemaining == 0 || out.gasEmitted == 0
    ensures out.gasEmitted > 0 ==> IsSCCallAfter(c, inp, dst, extra)
  {
    hide NftSendOne, IsSCCallAfter, WasAlreadySent, CopyCost, CheckDestination;
    var (moved, tok) := NftSendOne(c, sh, inp, dst, mv, extra).value;
    var (sys, item, gas) := NftShip(c, moved.sys, dst, mv, tok, inp.gasProvided - c.costs.nftTransfer).value;
    assert [item][..0] == [];
    assert CopyCosts(c, [item]) == if item.body.Payload? then CopyCost(c, item.body.data) else 0;
  }

  lemma FungibleSendGas(c: Config, sh: Shard, inp: Input, dst: Address, t: Bytes, value: nat, extra: seq<Bytes>,
                        after: Shard, out: Output)
    requires FungibleSend(c, sh, inp, dst, t, value, extra) == Ok((after, out))
    ensures Left(out) + c.costs.transfer == inp.gasProvided
    ensures out.gasRemaining == 0 || out.gasEmitted == 0
    ensures out.gasEmitted > 0 ==>
              if ToShard(c, dst) then IsSCCallAfter(c, inp, dst, extra) else IsSmartContractAddress(inp.caller)
  {
    hide AddToBalance, CheckPayable, IsSCCallAfter, CheckLimitedTransfer, IsSmartContractAddress;
  }

  /** NFT transfers pass on all the gas that arrives; the fungible one never more than arrives. */
  lemma DeliverGas(c: Config, sh: Shard, env: Envelope, gas: uint64, after: Shard, out: Output)
    requires Deliver(c, sh, env, gas) == Ok((after, out))
    ensures env.carrier != ByTransfer ==> Left(out) == gas
    ensures Left(out) <= gas
    ensures out.gasRemaining == 0 || out.gasEmitted == 0
    ensures out.sent == []
  {
    hide CreditAll, CheckPayable, IsSCCallAfter, IsSmartContractAddress;
  }

  function InputOf(call: Call): Input
    requires IsTransfer(call)
  {
    match call
    case FungibleCall(inp, _, _, _, _) => inp
    case NftCall(inp, _, _, _) => inp
    case MultiCall(inp, _, _, _) => inp
  }

  /** What the call itself costs, without copying. */
  function BaseCost(c: Config, call: Call): uint64
    requires IsTransfer(call)
  {
    match call
    case FungibleCall(_, _, _, _, _) => c.costs.transfer
    case NftCall(_, _, _, _) => c.costs.nftTransfer
    case MultiCall(_, _, moves, _) => MultiCost(c, |moves|)
  }

  /**
   * No transfer creates gas: what sender and destination have left together is what was provided less the costs of call
   * and copying, exactly for NFTs, and at most that for fungible tokens, whose delivery may charge once more.
   */
  lemma TransferGasEndToEnd(c: Config, d: Config, sh: Shard, there: Shard, call: Call, after: Shard, out: Output,
                            arrived: Shard, last: Output)
    requires IsTransfer(call) && Execute(c, sh, call) == Ok((after, out)) && !ToShard(c, call.dst)
    requires |out.sent| == 1 && out.gasEmitted < TWO64 && Deliver(d, there, out.sent[0], out.gasEmitted) == Ok((arrived, last))
    ensures var total := out.gasRemaining + Left(last) + CopyCosts(c, out.sent[0].items) + BaseCost(c, call);
            total <= InputOf(call).gasProvided && (!call.FungibleCall? ==> total == InputOf(call).gasProvided)
  {
    hide Execute, Deliver, CopyCosts, BaseCost;
    SenderLosesItsCosts(c, sh, call, after, out);
    DeliverGas(d, there, out.sent[0], out.gasEmitted, arrived, last);
  }

  lemma SenderLosesItsCosts(c: Config, sh: Shard, call: Call, after: Shard, out: Output)
    requires IsTransfer(call) && Execute(c, sh, call) == Ok((after, out)) && !ToShard(c, call.dst)
    ensures |out.sent| == 1
    ensures Left(out) + CopyCosts(c, out.sent[0].items) + BaseCost(c, call) == InputOf(call).gasProvided
    ensures out.sent[0].carrier == ByTransfer ==> call.FungibleCall?
  {
    hide MultiSend, NftSend, FungibleSend, CopyCosts, MultiCost, IsSCCallAfter, IsSmartContractAddress, AlwaysCopied;
    match call
    case FungibleCall(inp, dst, t, value, extra) =>
      FungibleSendGas(c, sh, inp, dst, t, value, extra, after, out);
      FungibleIsFree(c, sh, inp, dst, t, value, extra, after, out);
    case NftCall(inp, dst, mv, extra) =>
      NftSendGas(c, sh, inp, dst, mv, extra, after, out);
      NftCarrier(c, sh, inp, dst, mv, extra, after, out);
    case MultiCall(inp, dst, moves, extra) =>
      MultiSendGas(c, sh, inp, dst, moves, extra, after, out);
      MultiCarrier(c, sh, inp, dst, moves, extra, after, out);
  }

  lemma FungibleIsFree(c: Config, sh: Shard, inp: Input, dst: Address, t: Bytes, value: nat, extra: seq<Bytes>, after: Shard, out: Output)
    requires !ToShard(c, dst) && FungibleSend(c, sh, inp, dst, t, value, extra) == Ok((after, out))
    ensures |out.sent| == 1 && CopyCosts(c, out.sent[0].items) == 0
  {
    hide AddToBalance, CheckPayable, IsSCCallAfter, CheckLimitedTransfer, IsSmartContractAddress;
    assert out.sent[0].items[..0] == [];
  }

  lemma NftCarrier(c: Config, sh: Shard, inp: Input, dst: Address, mv: Move, extra: seq<Bytes>, after: Shard, out: Output)
    requires !ToShard(c, dst) && NftSend(c, sh, inp, dst, mv, extra) == Ok((after, out))
    ensures |out.sent| == 1 && out.sent[0].carrier == ByNftTransfer
  {
    hide NftSendOne, IsSCCallAfter, NftShip, CheckDestination;
  }

  lemma MultiCarrier(c: Config, sh: Shard, inp: Input, dst: Address, moves: seq<Move>, extra: seq<Bytes>, after: Shard, out: Output)
    requires !ToShard(c, dst) && MultiSend(c, sh, inp, dst, moves, extra) == Ok((after, out))
    ensures |out.sent| == 1 && out.sent[0].carrier == ByMultiTransfer
  {
    hide SendAll, ShipAll, CheckPayable, IsSCCallAfter, CheckDestination;
  }

  /** The charge for a list is its length times the cost of one token exactly when that product fits a word. */
  lemma MultiCostIsExactWithoutWrap(c: Config, count: nat)
    ensures MultiCost(c, count) == count * c.costs.multiTransfer <==> count * c.costs.multiTransfer < TWO64
    ensures MultiCost(c, count) <= count * c.costs.multiTransfer
  {
    var cost := count * c.costs.multiTransfer;
    assert cost >= 0;
    assert cost == TWO64 * (cost / TWO64) + cost % TWO64;
  }
}
