/** What a successful transfer sends, who gets its gas, and what it must have passed on the way. */
module TransferEffects {
  import opened Bytes
  import opened Keys
  import opened Wrappers
  import opened Ledger
  import opened Operations
  import opened Barrier
  import BarrierRuns

  // ---- messages and gas ----

  /** A contract's address: more than ten bytes, of which the first eight are zero. */
  predicate IsContract(a: Address) {
    |a| > 10 && a[..8] == [0, 0, 0, 0, 0, 0, 0, 0]
  }

  lemma ContractAddresses(a: Address)
    ensures IsSmartContractAddress(a) <==> IsContract(a)
  {
    if IsContract(a) {
      forall i | 0 <= i < 8 ensures a[i] == 0 {
        assert a[i] == a[..8][i];
      }
    }
  }

  /** A contract call follows: the call names a function of a contract, and is no return but that of a callback. */
  predicate CallFollows(c: Config, inp: Input, dst: Address, extra: seq<Bytes>) {
    && |extra| > 0 && IsContract(dst)
    && (c.flags.checkFunctionArgument ==> |extra[0]| > 0)
    && (inp.retErr ==> inp.callType == AsynchronousCallBack)
  }

  lemma CallFollowsExactly(c: Config, inp: Input, dst: Address, extra: seq<Bytes>)
    ensures IsSCCallAfter(c, inp, dst, extra) <==> CallFollows(c, inp, dst, extra)
  {
    ContractAddresses(dst);
  }

  function Total(out: Output): nat {
    out.gasRemaining + out.gasEmitted
  }

  /** All the gas goes one way. */
  predicate GasGoes(out: Output, onward: bool) {
    if onward then out.gasRemaining == 0 else out.gasEmitted == 0
  }

  /** Nothing leaves the shard, or one message with everything that the call says. */
  predicate Sends(c: Config, inp: Input, dst: Address, carrier: Carrier, extra: seq<Bytes>, out: Output) {
    if c.shardOf(dst) == c.self then out.sent == []
    else
      && |out.sent| == 1 && out.sent[0].carrier == carrier
      && out.sent[0].caller == inp.caller && out.sent[0].recipient == dst && out.sent[0].extra == extra
      && out.sent[0].callType == inp.callType && out.sent[0].retErr == inp.retErr
  }

  lemma MultiTransferSends(c: Config, sh: Shard, inp: Input, dst: Address, moves: seq<Move>, extra: seq<Bytes>, after: Shard, out: Output)
    requires MultiSend(c, sh, inp, dst, moves, extra) == Ok((after, out))
    ensures Sends(c, inp, dst, ByMultiTransfer, extra, out)
    ensures GasGoes(out, CallFollows(c, inp, dst, extra))
  {
    hide SendAll, ShipAll, CheckPayable, CheckDestination, IsSCCallAfter, CallFollows;
    CallFollowsExactly(c, inp, dst, extra);
  }

  lemma NftTransferSends(c: Config, sh: Shard, inp: Input, dst: Address, mv: Move, extra: seq<Bytes>, after: Shard, out: Output)
    requires NftSend(c, sh, inp, dst, mv, extra) == Ok((after, out))
    ensures Sends(c, inp, dst, ByNftTransfer, extra, out)
    ensures GasGoes(out, CallFollows(c, inp, dst, extra))
    ensures c.shardOf(dst) != c.self ==>
              && |out.sent[0].items| == 1
              && out.sent[0].items[0].token == mv.token && out.sent[0].items[0].nonce == mv.nonce
  {
    hide NftSendOne, WasAlreadySent, CopyCost, CheckDestination, IsSCCallAfter, CallFollows;
    CallFollowsExactly(c, inp, dst, extra);
  }

  /** Across shards a fungible transfer hands on its gas exactly if a contract sends it. */
  lemma FungibleTransferSends(c: Config, sh: Shard, inp: Input, dst: Address, t: Bytes, value: nat, extra: seq<Bytes>,
                              after: Shard, out: Output)
    requires FungibleSend(c, sh, inp, dst, t, value, extra) == Ok((after, out))
    ensures Sends(c, inp, dst, ByTransfer, extra, out)
    ensures c.shardOf(dst) != c.self ==> out.sent[0].items == [Item(t, 0, Amount(value))]
    ensures GasGoes(out, if c.shardOf(dst) == c.self then CallFollows(c, inp, dst, extra) else IsContract(inp.caller))
  {
    hide AddToBalance, CheckLimitedTransfer, CheckPayable, IsSCCallAfter, CallFollows, IsContract, IsSmartContractAddress;
    CallFollowsExactly(c, inp, dst, extra);
    ContractAddresses(inp.caller);
  }

  /** At the destination: NFT transfers give all gas to the contract they name, fungible ones what their cost leaves. */
  lemma DeliveryGasGoes(c: Config, sh: Shard, env: Envelope, gas: uint64, after: Shard, out: Output)
    requires Deliver(c, sh, env, gas) == Ok((after, out))
    ensures out.sent == []
    ensures env.carrier != ByTransfer ==>
              Total(out) == gas && GasGoes(out, |env.extra| > 0 && IsContract(env.recipient))
    ensures env.carrier == ByTransfer ==>
              var follows := CallFollows(c, Input(env.caller, gas, env.callType, env.retErr), env.recipient, env.extra);
              && GasGoes(out, follows)
              && Total(out) == (if follows then (if gas < c.costs.transfer then 0 else gas - c.costs.transfer)
                                else if env.callType == AsynchronousCallBack then gas else 0)
  {
    hide CreditAll, CheckPayable, IsSCCallAfter, CallFollows, IsContract, IsSmartContractAddress;
    CallFollowsExactly(c, Input(env.caller, gas, env.callType, env.retErr), env.recipient, env.extra);
    ContractAddresses(env.recipient);
  }

  // ---- checks that a success has passed ----

  /** A destination may be credited: it is payable, or the call is one of the exempt ones, or it goes on to a function. */
  predicate MayBePaid(c: Config, caller: Address, callType: CallType, retErr: bool, dst: Address, extra: seq<Bytes>) {
    || c.isPayable(caller, dst)
    || caller == c.dctSC || callType == DCTTransferAndExecute
    || (if c.flags.fixAsyncCallback then retErr || callType == AsynchronousCallBack else callType == AsynchronousCall)
    || (|extra| > 0 && (c.flags.checkFunctionArgument ==> |extra[0]| > 0))
  }

  lemma PayableExactly(c: Config, inp: Input, dst: Address, extra: seq<Bytes>)
    ensures CheckPayable(c, inp, dst, extra).Pass? <==> MayBePaid(c, inp.caller, inp.callType, inp.retErr, dst, extra)
    ensures CheckPayable(c, inp, dst, extra).Fail? ==> CheckPayable(c, inp, dst, extra).error == ErrAccountNotPayable
  {
  }

  /** A transfer of a limited token has a sender or destination with the transfer role; returns are exempt. */
  predicate MayMove(c: Config, sh: Shard, snd: Address, dst: Address, t: Bytes, retErr: bool) {
    var id := if c.flags.tokenIdForTransferRole then t else c.keyPrefix + t;
    || retErr
    || !(t in sh.sys && sh.sys[t].Settings? && sh.sys[t].limitedTransfer)
    || (id in sh.transferRole && (snd in sh.transferRole[id] || dst in sh.transferRole[id]))
    || ((snd, id) in sh.roles && TransferRole in sh.roles[(snd, id)])
    || (c.shardOf(dst) == c.self && (dst, id) in sh.roles && TransferRole in sh.roles[(dst, id)])
  }

  lemma LimitedExactly(c: Config, sh: Shard, snd: Address, dst: Address, t: Bytes, retErr: bool)
    ensures CheckLimitedTransfer(c, sh, snd, dst, ToShard(c, dst), t, retErr).Pass? <==> MayMove(c, sh, snd, dst, t, retErr)
  {
  }

  /** Settings and roles of a token are the same in two states. */
  lemma MayMoveInBoth(c: Config, before: Shard, after: Shard, snd: Address, dst: Address, t: Bytes, retErr: bool)
    requires ValidToken(t) && SameSettings(before.sys, after.sys)
    requires after.roles == before.roles && after.transferRole == before.transferRole
    requires MayMove(c, after, snd, dst, t, retErr)
    ensures MayMove(c, before, snd, dst, t, retErr)
  {
    hide ValidToken;
  }

  lemma FungibleTransferMayMove(c: Config, sh: Shard, inp: Input, dst: Address, t: Bytes, value: nat, extra: seq<Bytes>,
                                after: Shard, out: Output)
    requires FungibleSend(c, sh, inp, dst, t, value, extra) == Ok((after, out))
    ensures MayMove(c, sh, inp.caller, dst, t, inp.retErr)
    ensures c.shardOf(dst) == c.self ==> MayBePaid(c, inp.caller, inp.callType, inp.retErr, dst, extra)
    ensures c.shardOf(dst) == METACHAIN ==> c.flags.transferToMeta
    ensures value > 0
  {
    hide AddToBalance, CheckLimitedTransfer, CheckPayable, IsSCCallAfter, MayMove, MayBePaid;
    LimitedExactly(c, sh, inp.caller, dst, t, inp.retErr);
    PayableExactly(c, inp, dst, extra);
  }

  lemma NftTransferMayMove(c: Config, sh: Shard, inp: Input, dst: Address, mv: Move, extra: seq<Bytes>, after: Shard, out: Output)
    requires ValidToken(mv.token) && NftSend(c, sh, inp, dst, mv, extra) == Ok((after, out))
    ensures MayMove(c, sh, inp.caller, dst, mv.token, inp.retErr)
    ensures c.shardOf(dst) == c.self ==> MayBePaid(c, inp.caller, inp.callType, inp.retErr, dst, extra)
    ensures |dst| == |inp.caller| && dst != inp.caller && (c.shardOf(dst) == METACHAIN ==> c.flags.transferToMeta)
    ensures c.flags.checkTransfer ==> mv.value > 0
  {
    hide SameSettings, SaveToken, AddToLiquidity, ReadTokenOnSender, AddToDestination, CheckLimitedTransfer, NftShip, Finish;
    hide CheckPayable, ValidToken, MayMove, MayBePaid;
    var own := ReadTokenOnSender(c, sh, inp.caller, mv.token, mv.nonce).value;
    var (shipped, debited) := DebitForNft(c, sh, inp.caller, mv, inp.retErr).value;
    SaveTokenKeepsSettings(c, sh, inp.caller, inp.caller, mv.token, mv.nonce, own.(value := own.value - mv.value), false, inp.retErr, debited);
    SaveTokenKeepsRoles(c, sh, inp.caller, inp.caller, mv.token, mv.nonce, own.(value := own.value - mv.value), false, inp.retErr, debited);
    var (moved, final) := NftMoveOn(c, debited, inp, dst, shipped, mv, extra).value;
    if ToShard(c, dst) {
      BarrierRuns.CreditKeepsSettings(c, debited, inp.caller, dst, shipped, mv.token, mv.nonce, inp.retErr, moved, final);
      CreditKeepsRoles(c, debited, inp.caller, dst, shipped, mv.token, mv.nonce, inp.retErr, moved, final);
    } else {
      AddToLiquidityKeepsSettings(c, debited.sys, mv.token, mv.nonce, -(mv.value as int), moved.sys);
    }
    BarrierRuns.SameSettingsTrans(sh.sys, debited.sys, moved.sys);
    LimitedExactly(c, moved, inp.caller, dst, mv.token, inp.retErr);
    MayMoveInBoth(c, sh, moved, inp.caller, dst, mv.token, inp.retErr);
    PayableExactly(c, inp, dst, extra);
  }

  lemma SaveTokenKeepsRoles(c: Config, sh: Shard, snd: Address, a: Address, t: Bytes, nonce: uint64, tok: Token,
                            mustUpdate: bool, retErr: bool, after: Shard)
    requires SaveToken(c, sh, snd, a, t, nonce, tok, mustUpdate, retErr) == Ok(after)
    ensures after.roles == sh.roles && after.transferRole == sh.transferRole
  {
    hide SaveMeta, CheckFrozenPauseProperties;
  }

  lemma CreditKeepsRoles(c: Config, sh: Shard, snd: Address, dst: Address, tok: Token, t: Bytes, nonce: uint64,
                         retErr: bool, after: Shard, merged: Token)
    requires AddToDestination(c, sh, snd, dst, tok, t, nonce, retErr) == Ok((after, merged))
    ensures after.roles == sh.roles && after.transferRole == sh.transferRole
  {
    hide SaveMeta, CheckFrozenPauseProperties, CheckFrozeAndPause, AddToLiquidity, ReadToken;
  }

  lemma SendOneMayMove(c: Config, sh: Shard, snd: Address, dst: Address, mv: Move, retErr: bool, after: Shard, tok: Token)
    requires ValidToken(mv.token) && SendOne(c, sh, snd, dst, mv, retErr) == Ok((after, tok))
    ensures MayMove(c, sh, snd, dst, mv.token, retErr)
    ensures after.roles == sh.roles && after.transferRole == sh.transferRole
  {
    hide SameSettings, SaveToken, AddToLiquidity, ReadTokenOnSender, AddToDestination, CheckLimitedTransfer, ValidToken, MayMove;
    var own := ReadTokenOnSender(c, sh, snd, mv.token, mv.nonce).value;
    var (shipped, debited) := DebitForMulti(c, sh, snd, mv, retErr).value;
    SaveTokenKeepsSettings(c, sh, snd, snd, mv.token, mv.nonce, own.(value := own.value - mv.value), false, retErr, debited);
    SaveTokenKeepsRoles(c, sh, snd, snd, mv.token, mv.nonce, own.(value := own.value - mv.value), false, retErr, debited);
    LimitedExactly(c, debited, snd, dst, mv.token, retErr);
    MayMoveInBoth(c, sh, debited, snd, dst, mv.token, retErr);
    if ToShard(c, dst) {
      CreditKeepsRoles(c, debited, snd, dst, shipped, mv.token, mv.nonce, retErr, after, tok);
    }
  }

  lemma {:induction false} SendAllMayMove(c: Config, sh: Shard, snd: Address, dst: Address, moves: seq<Move>, retErr: bool,
                                          after: Shard, tokens: seq<Token>)
    requires forall i :: 0 <= i < |moves| ==> ValidToken(moves[i].token)
    requires SendAll(c, sh, snd, dst, moves, retErr) == Ok((after, tokens))
    ensures forall i :: 0 <= i < |moves| ==> MayMove(c, sh, snd, dst, moves[i].token, retErr)
    ensures after.roles == sh.roles && after.transferRole == sh.transferRole
  {
    hide SendOne, ValidToken, MayMove, SameSettings;
    if moves != [] {
      var last := |moves| - 1;
      var (mid, init) := SendAll(c, sh, snd, dst, moves[..last], retErr).value;
      SendAllMayMove(c, sh, snd, dst, moves[..last], retErr, mid, init);
      BarrierRuns.SendAllKeepsSettings(c, sh, snd, dst, moves[..last], retErr, mid, init);
      var (end, tok) := SendOne(c, mid, snd, dst, moves[last], retErr).value;
      SendOneMayMove(c, mid, snd, dst, moves[last], retErr, end, tok);
      MayMoveInBoth(c, sh, mid, snd, dst, moves[last].token, retErr);
    }
  }

  lemma MultiTransferMayMove(c: Config, sh: Shard, inp: Input, dst: Address, moves: seq<Move>, extra: seq<Bytes>, after: Shard, out: Output)
    requires forall i :: 0 <= i < |moves| ==> ValidToken(moves[i].token)
    requires MultiSend(c, sh, inp, dst, moves, extra) == Ok((after, out))
    ensures forall i :: 0 <= i < |moves| ==> MayMove(c, sh, inp.caller, dst, moves[i].token, inp.retErr)
    ensures c.shardOf(dst) == c.self ==> MayBePaid(c, inp.caller, inp.callType, inp.retErr, dst, extra)
    ensures |dst| == |inp.caller| && dst != inp.caller && (c.shardOf(dst) == METACHAIN ==> c.flags.transferToMeta)
    ensures moves != []
  {
    hide SendAll, ShipAll, CheckPayable, Finish, MayMove, MayBePaid, ValidToken;
    var (moved, tokens) := SendAll(c, sh, inp.caller, dst, moves, inp.retErr).value;
    SendAllMayMove(c, sh, inp.caller, dst, moves, inp.retErr, moved, tokens);
    PayableExactly(c, inp, dst, extra);
  }

  /** A delivery credits only who may be paid; a fungible one only positive amounts, and the metachain only with its flag. */
  lemma DeliveryMayBePaid(c: Config, sh: Shard, env: Envelope, gas: uint64, after: Shard, out: Output)
    requires Deliver(c, sh, env, gas) == Ok((after, out))
    ensures MayBePaid(c, env.caller, env.callType, env.retErr, env.recipient, env.extra)
    ensures env.carrier == ByTransfer ==> forall i :: 0 <= i < |env.items| ==> env.items[i].Value() > 0
    ensures env.carrier == ByTransfer && c.shardOf(env.recipient) == METACHAIN ==> c.flags.transferToMeta
    ensures env.items != []
  {
    hide CreditAll, CheckPayable, MayBePaid, DeliveryGas;
    PayableExactly(c, Input(env.caller, gas, env.callType, env.retErr), env.recipient, env.extra);
    if env.carrier == ByTransfer {
      forall i | 0 <= i < |env.items| ensures env.items[i].Value() > 0 {
        assert env.items[i] in env.items;
      }
    }
  }
}
