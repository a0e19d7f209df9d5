/**
 * Empty holdings of NFTs: an account keeps an entry of amount zero only for its frozen bit. So adding quantity to an
 * empty holding is stopped by that bit, for every caller who is not exempt from it. This holds under any flags.
 */
module ZeroHoldings {
  import opened Bytes
  import opened Keys
  import opened Wrappers
  import opened Ledger
  import opened Operations
  import opened Totals
  import opened World
  import opened Conservation
  import TransferParser

  ghost predicate ZeroIsFrozen(users: Users) {
    forall x :: x in users && users[x].value == 0 && IsNftKey(x.1) ==> Frozen(users[x].properties)
  }

  /** Empty NFT holdings that appear are frozen. */
  ghost predicate NoNewZeros(before: Users, after: Users) {
    forall x :: x in after && after[x].value == 0 && IsNftKey(x.1) ==>
      (x in before && before[x] == after[x]) || Frozen(after[x].properties)
  }

  lemma NoNewZerosTrans(a: Users, b: Users, d: Users)
    requires NoNewZeros(a, b) && NoNewZeros(b, d)
    ensures NoNewZeros(a, d)
  {
    hide IsNftKey, Frozen;
  }

  lemma SaveTokenLeavesNoZero(c: Config, sh: Shard, snd: Address, a: Address, t: Bytes, nonce: uint64, tok: Token,
                              mustUpdate: bool, retErr: bool, after: Shard)
    requires SaveToken(c, sh, snd, a, t, nonce, tok, mustUpdate, retErr) == Ok(after)
    ensures NoNewZeros(sh.users, after.users)
  {
    hide IsNftKey, Frozen, SaveMeta, CheckFrozenPauseProperties;
  }

  lemma AddToBalanceLeavesNoZero(c: Config, sh: Shard, a: Address, t: Bytes, delta: int, retErr: bool, after: Shard)
    requires ValidToken(t) && AddToBalance(c, sh, a, t, delta, retErr) == Ok(after)
    ensures NoNewZeros(sh.users, after.users)
  {
    FungibleKeyIsNotNftKey(t);
    hide IsNftKey, Frozen, ValidToken, CheckFrozeAndPause;
  }

  lemma CreditLeavesNoZero(c: Config, sh: Shard, snd: Address, dst: Address, tok: Token, t: Bytes, nonce: uint64,
                           retErr: bool, after: Shard, merged: Token)
    requires AddToDestination(c, sh, snd, dst, tok, t, nonce, retErr) == Ok((after, merged))
    ensures NoNewZeros(sh.users, after.users)
  {
    hide NoNewZeros, SaveToken, AddToLiquidity, ReadToken;
    var saved := AddToDestinationWrite(c, sh, snd, dst, tok, t, nonce, retErr, after, merged);
    SaveTokenLeavesNoZero(c, sh, snd, dst, t, nonce, merged, false, retErr, saved);
  }

  lemma SendOneLeavesNoZero(c: Config, sh: Shard, snd: Address, dst: Address, mv: Move, retErr: bool, after: Shard, tok: Token)
    requires SendOne(c, sh, snd, dst, mv, retErr) == Ok((after, tok))
    ensures NoNewZeros(sh.users, after.users)
  {
    hide NoNewZeros, SaveToken, AddToLiquidity, ReadTokenOnSender, AddToDestination, CheckLimitedTransfer;
    var own := ReadTokenOnSender(c, sh, snd, mv.token, mv.nonce).value;
    var (shipped, debited) := DebitForMulti(c, sh, snd, mv, retErr).value;
    SaveTokenLeavesNoZero(c, sh, snd, snd, mv.token, mv.nonce, own.(value := own.value - mv.value), false, retErr, debited);
    if ToShard(c, dst) {
      CreditLeavesNoZero(c, debited, snd, dst, shipped, mv.token, mv.nonce, retErr, after, tok);
      NoNewZerosTrans(sh.users, debited.users, after.users);
    }
  }

  lemma Unchanged(users: Users)
    ensures NoNewZeros(users, users)
  {
  }

  lemma {:induction false} SendAllLeavesNoZero(c: Config, sh: Shard, snd: Address, dst: Address, moves: seq<Move>,
                                               retErr: bool, after: Shard, tokens: seq<Token>)
    requires SendAll(c, sh, snd, dst, moves, retErr) == Ok((after, tokens))
    ensures NoNewZeros(sh.users, after.users)
  {
    hide NoNewZeros, SendOne;
    if moves == [] {
      Unchanged(sh.users);
    } else {
      var last := |moves| - 1;
      var (mid, init) := SendAll(c, sh, snd, dst, moves[..last], retErr).value;
      SendAllLeavesNoZero(c, sh, snd, dst, moves[..last], retErr, mid, init);
      var (end, tok) := SendOne(c, mid, snd, dst, moves[last], retErr).value;
      SendOneLeavesNoZero(c, mid, snd, dst, moves[last], retErr, end, tok);
      NoNewZerosTrans(sh.users, mid.users, end.users);
    }
  }

  lemma NftSendLeavesNoZero(c: Config, sh: Shard, inp: Input, dst: Address, mv: Move, extra: seq<Bytes>, after: Shard, out: Output)
    requires NftSend(c, sh, inp, dst, mv, extra) == Ok((after, out))
    ensures NoNewZeros(sh.users, after.users)
  {
    hide NoNewZeros, SaveToken, AddToLiquidity, ReadTokenOnSender, AddToDestination, CheckLimitedTransfer, NftShip, Finish, CheckPayable;
    var own := ReadTokenOnSender(c, sh, inp.caller, mv.token, mv.nonce).value;
    var (shipped, debited) := DebitForNft(c, sh, inp.caller, mv, inp.retErr).value;
    SaveTokenLeavesNoZero(c, sh, inp.caller, inp.caller, mv.token, mv.nonce, own.(value := own.value - mv.value), false, inp.retErr, debited);
    var (moved, final) := NftMoveOn(c, debited, inp, dst, shipped, mv, extra).value;
    if ToShard(c, dst) {
      CreditLeavesNoZero(c, debited, inp.caller, dst, shipped, mv.token, mv.nonce, inp.retErr, moved, final);
      NoNewZerosTrans(sh.users, debited.users, moved.users);
    }
  }

  lemma FungibleSendLeavesNoZero(c: Config, sh: Shard, inp: Input, dst: Address, t: Bytes, value: nat, extra: seq<Bytes>,
                                 after: Shard, out: Output)
    requires ValidToken(t) && FungibleSend(c, sh, inp, dst, t, value, extra) == Ok((after, out))
    ensures NoNewZeros(sh.users, after.users)
  {
    hide NoNewZeros, AddToBalance, CheckLimitedTransfer, CheckPayable, IsSCCallAfter, ValidToken;
    var debited := AddToBalance(c, sh, inp.caller, t, -(value as int), inp.retErr).value;
    AddToBalanceLeavesNoZero(c, sh, inp.caller, t, -(value as int), inp.retErr, debited);
    if ToShard(c, dst) {
      AddToBalanceLeavesNoZero(c, debited, dst, t, value, inp.retErr, after);
      NoNewZerosTrans(sh.users, debited.users, after.users);
    }
  }

  lemma FreezeLeavesNoZero(sh: Shard, a: Address, key: Bytes, freeze: bool)
    ensures NoNewZeros(sh.users, ToggleFreeze(sh, a, key, freeze).users)
  {
    hide IsNftKey;
  }

  lemma NftCallLeavesNoZero(c: Config, sh: Shard, call: Call, after: Shard, out: Output)
    requires IsNftCall(call) && Execute(c, sh, call) == Ok((after, out))
    ensures NoNewZeros(sh.users, after.users)
  {
    hide NoNewZeros, SaveToken, AddToLiquidity, ReadTokenOnSender, HasRole, ToNat, TotalLength;
    match call
    case CreateCall(inp, holder, cr) =>
      var nonce := NextNonce(sh, holder, cr.token);
      var meta := MetaData(nonce, cr.name, inp.caller, cr.royalties, cr.hash, cr.attributes, cr.uris);
      var tok := Token(NonFungible, ToNat(cr.quantity), [], Some(meta), []);
      SaveTokenLeavesNoZero(c, sh, holder, holder, cr.token, nonce, tok, true, inp.retErr,
                            SaveToken(c, sh, holder, holder, cr.token, nonce, tok, true, inp.retErr).value);
    case AddQuantityCall(inp, t, nonce, quantity) =>
      var own := ReadTokenOnSender(c, sh, inp.caller, t, nonce).value;
      var more := own.(value := own.value + ToNat(quantity));
      SaveTokenLeavesNoZero(c, sh, inp.caller, inp.caller, t, nonce, more, false, inp.retErr,
                            SaveToken(c, sh, inp.caller, inp.caller, t, nonce, more, false, inp.retErr).value);
    case BurnCall(inp, t, nonce, value) =>
      var own := ReadTokenOnSender(c, sh, inp.caller, t, nonce).value;
      var less := own.(value := own.value - value);
      SaveTokenLeavesNoZero(c, sh, inp.caller, inp.caller, t, nonce, less, false, inp.retErr,
                            SaveToken(c, sh, inp.caller, inp.caller, t, nonce, less, false, inp.retErr).value);
    case UpdateCall(inp, t, nonce, update) =>
      var own := ReadTokenOnSender(c, sh, inp.caller, t, nonce).value;
      SaveTokenLeavesNoZero(c, sh, inp.caller, inp.caller, t, nonce, own.(meta := Some(update.Apply(own.meta.value))), true,
                            inp.retErr, after);
  }

  lemma CallLeavesNoZero(c: Config, sh: Shard, call: Call, after: Shard, out: Output)
    requires ValidTokens(call) && Execute(c, sh, call) == Ok((after, out))
    ensures NoNewZeros(sh.users, after.users)
  {
    if IsNftCall(call) {
      hide Execute;
      NftCallLeavesNoZero(c, sh, call, after, out);
    } else {
      hide NoNewZeros, MultiSend, NftSend, FungibleSend, AddToBalance, ToggleFreeze, Wipe, ValidToken, HasRole;
      match call
      case FungibleCall(inp, dst, t, value, extra) => FungibleSendLeavesNoZero(c, sh, inp, dst, t, value, extra, after, out);
      case NftCall(inp, dst, mv, extra) => NftSendLeavesNoZero(c, sh, inp, dst, mv, extra, after, out);
      case MultiCall(inp, dst, moves, extra) =>
        MultiSendLeavesNoZero(c, sh, inp, dst, moves, extra, after, out);
      case MintCall(inp, t, quantity) => AddToBalanceLeavesNoZero(c, sh, inp.caller, t, ToNat(quantity), inp.retErr, after);
      case BurnFungibleCall(inp, t, value) => AddToBalanceLeavesNoZero(c, sh, inp.caller, t, -(value as int), inp.retErr, after);
      case FreezeCall(a, key, freeze) => FreezeLeavesNoZero(sh, a, key, freeze);
      case WipeCall(a, key) => WipeLeavesNoZero(c, sh, a, key, after);
      case SettingCall(_, _, _) => Unchanged(sh.users);
      case RolesCall(_, _, _, _, _) => Unchanged(sh.users);
    }
  }

  lemma WipeLeavesNoZero(c: Config, sh: Shard, a: Address, key: Bytes, after: Shard)
    requires Wipe(c, sh, a, key) == Ok(after)
    ensures NoNewZeros(sh.users, after.users)
  {
    hide AddToLiquidity, ExtractForWipe, IsNftKey;
  }

  lemma MultiSendLeavesNoZero(c: Config, sh: Shard, inp: Input, dst: Address, moves: seq<Move>, extra: seq<Bytes>,
                              after: Shard, out: Output)
    requires MultiSend(c, sh, inp, dst, moves, extra) == Ok((after, out))
    ensures NoNewZeros(sh.users, after.users)
  {
    hide NoNewZeros, SendAll, ShipAll, CheckPayable, CheckDestination, Finish;
    var (moved, tokens) := SendAll(c, sh, inp.caller, dst, moves, inp.retErr).value;
    SendAllLeavesNoZero(c, sh, inp.caller, dst, moves, inp.retErr, moved, tokens);
  }

  /** Identifiers of the items under way are valid, since those of all calls are. */
  predicate ValidItems(env: Envelope) {
    forall i :: 0 <= i < |env.items| ==> ValidToken(env.items[i].token)
  }

  predicate ValidNet(net: seq<Envelope>) {
    forall i :: 0 <= i < |net| ==> ValidItems(net[i])
  }

  lemma CreditOneLeavesNoZero(c: Config, sh: Shard, env: Envelope, item: Item, after: Shard)
    requires ValidToken(item.token) && CreditOne(c, sh, env, item) == Ok(after)
    ensures NoNewZeros(sh.users, after.users)
  {
    hide NoNewZeros, AddToDestination, AddToBalance, ValidToken;
    if env.carrier == ByNftTransfer || (env.carrier == ByMultiTransfer && item.nonce > 0) {
      var (end, merged) := AddToDestination(c, sh, env.caller, env.recipient, ArrivingToken(item), item.token, item.nonce, env.retErr).value;
      CreditLeavesNoZero(c, sh, env.caller, env.recipient, ArrivingToken(item), item.token, item.nonce, env.retErr, end, merged);
    } else {
      AddToBalanceLeavesNoZero(c, sh, env.recipient, item.token, item.Value(), env.retErr, after);
    }
  }

  lemma {:induction false} CreditAllLeavesNoZero(c: Config, sh: Shard, env: Envelope, items: seq<Item>)
    requires CreditAll(c, sh, env, items).Ok? && forall i :: 0 <= i < |items| ==> ValidToken(items[i].token)
    ensures NoNewZeros(sh.users, CreditAll(c, sh, env, items).value.users)
  {
    hide NoNewZeros, CreditOne, ValidToken;
    if items == [] {
      Unchanged(sh.users);
    } else {
      var last := |items| - 1;
      CreditAllLeavesNoZero(c, sh, env, items[..last]);
      var mid := CreditAll(c, sh, env, items[..last]).value;
      var end := CreditOne(c, mid, env, items[last]).value;
      CreditOneLeavesNoZero(c, mid, env, items[last], end);
      NoNewZerosTrans(sh.users, mid.users, end.users);
    }
  }

  lemma SentAreValid(c: Config, sh: Shard, call: Call, after: Shard, out: Output)
    requires ValidTokens(call) && Execute(c, sh, call) == Ok((after, out))
    ensures ValidNet(out.sent)
  {
    hide MultiSend, NftSend, AddToBalance, SaveToken, AddToLiquidity, ReadToken, HasRole, ValidToken;
    hide CheckLimitedTransfer, CheckPayable, IsSCCallAfter;
    match call
    case MultiCall(inp, dst, moves, extra) =>
      if ToShard(c, dst) {
        SendsNothingHere(c, sh, inp, dst, moves, extra, after, out);
      } else {
        TransferParser.MultiSendCarries(c, sh, inp, dst, moves, extra, after, out);
        assert forall i :: 0 <= i < |moves| ==> TransferParser.MoveOf(out.sent[0].items[i]) == Some(moves[i]);
      }
    case NftCall(inp, dst, mv, extra) =>
      if ToShard(c, dst) {
        SendsNoNftHere(c, sh, inp, dst, mv, extra, after, out);
      } else {
        TransferParser.NftSendCarries(c, sh, inp, dst, mv, extra, after, out);
      }
    case _ =>
  }

  lemma SendsNothingHere(c: Config, sh: Shard, inp: Input, dst: Address, moves: seq<Move>, extra: seq<Bytes>, after: Shard, out: Output)
    requires ToShard(c, dst) && MultiSend(c, sh, inp, dst, moves, extra) == Ok((after, out))
    ensures out.sent == []
  {
    hide SendAll, ShipAll, CheckPayable, IsSCCallAfter, CheckDestination;
  }

  lemma SendsNoNftHere(c: Config, sh: Shard, inp: Input, dst: Address, mv: Move, extra: seq<Bytes>, after: Shard, out: Output)
    requires ToShard(c, dst) && NftSend(c, sh, inp, dst, mv, extra) == Ok((after, out))
    ensures out.sent == []
  {
    hide NftSendOne, NftShip, IsSCCallAfter, CheckDestination;
  }

  // ---- whole runs ----

  ghost predicate NoZeros(w: World) {
    ValidNet(w.net) && forall s :: 0 <= s < |w.shards| ==> ZeroIsFrozen(w.shards[s].users)
  }

  lemma StillFrozen(before: Users, after: Users)
    requires ZeroIsFrozen(before) && NoNewZeros(before, after)
    ensures ZeroIsFrozen(after)
  {
    hide IsNftKey, Frozen;
  }

  /** Every step keeps it, whatever the flags. */
  lemma StepKeepsNoZeros(c: Config, w: World, act: Action, after: World)
    requires NoZeros(w) && Next(c, w, act) == Some(after) && (act.Run? ==> ValidTokens(act.call))
    ensures NoZeros(after)
  {
    hide Execute, Deliver, SaveMetaOfMessage, IsNext, ValidTokens, ZeroIsFrozen, NoNewZeros, ValidItems, RunsIn;
    match act
    case Run(s, call) =>
      var (sh, out) := Execute(At(c, s), w.shards[s], call).value;
      CallLeavesNoZero(At(c, s), w.shards[s], call, sh, out);
      StillFrozen(w.shards[s].users, sh.users);
      SentAreValid(At(c, s), w.shards[s], call, sh, out);
    case Arrive(i, gas) =>
      var env := w.net[i];
      var s := c.shardOf(env.recipient);
      BounceIsValid(env);
      if Deliver(At(c, s), w.shards[s], env, gas).Ok? {
        DeliveryLeavesNoZero(At(c, s), w.shards[s], env, gas);
        StillFrozen(w.shards[s].users, Deliver(At(c, s), w.shards[s], env, gas).value.0.users);
      }
    case HandOver(from, to, t) =>
      HandOverKeepsTokens(c, w, from, to, t, after);
  }

  lemma BounceIsValid(env: Envelope)
    ensures ValidItems(env) ==> ValidItems(Bounce(env))
  {
  }

  lemma DeliveryLeavesNoZero(c: Config, sh: Shard, env: Envelope, gas: uint64)
    requires ValidItems(env) && Deliver(c, sh, env, gas).Ok?
    ensures NoNewZeros(sh.users, Deliver(c, sh, env, gas).value.0.users)
  {
    hide CreditAll, CheckPayable, NoNewZeros;
    CreditAllLeavesNoZero(c, sh, env, env.items);
  }

  /** A caller who is not exempt cannot add quantity to nothing: there is nothing, or only a frozen entry. */
  lemma QuantityNeedsHolding(c: Config, sh: Shard, inp: Input, t: Bytes, nonce: uint64, quantity: Bytes)
    requires ZeroIsFrozen(sh.users) && NonNegative(sh.users) && ValidToken(t) && !inp.retErr && inp.caller != c.dctSC
    requires AddQuantity(c, sh, inp, t, nonce, quantity).Ok?
    ensures nonce > 0 && Balance(sh.users, inp.caller, TokenKey(t, nonce)) > 0
  {
    hide AddToLiquidity, SaveMeta, HasRole, CheckCollectionFrozen, ValidToken, Total;
    NftKeyIntro(t, nonce);
    ReadTokenValue(c, sh, inp.caller, t, nonce);
    NonNegativeBalance(sh.users, inp.caller, TokenKey(t, nonce));
  }
}
